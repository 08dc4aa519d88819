// The calendar buckets candles are grouped by: src/service/mod.rs. When one interval's buckets lie
// inside another's is decided here, for every pair of intervals.
module Buckets {
  import opened Calendar

  const DAY_SECS := 86_400
  const DAY_MS := 86_400_000

  datatype Unit = Even | Week | Month | Quarter | Year

  /** Which calendar unit an interval in seconds is taken for. */
  function UnitOf(secs: int): Unit {
    if secs < 604_800 then Even
    else if secs < 2_419_200 then Week
    else if secs < 7_000_000 then Month
    else if secs < 30_000_000 then Quarter
    else Year
  }

  /** The first day of the bucket that holds `day`. */
  function StartDay(day: int, unit: Unit): int
    requires unit != Even
  {
    if unit == Week then (day - 4) / 7 * 7 + 4
    else DaysFromCivil(StartDate(CivilFromDays(day), unit))
  }

  function StartDate(date: Civil, unit: Unit): Civil
    requires unit == Month || unit == Quarter || unit == Year
  {
    match unit
    case Month => Civil(date.year, date.month, 1)
    case Quarter => Civil(date.year, (date.month - 1) / 3 * 3 + 1, 1)
    case Year => Civil(date.year, 1, 1)
  }

  /** Open time of the bucket that contains `ms`. */
  function BucketStart(ms: int, secs: int): int
    requires secs > 0
  {
    if UnitOf(secs) == Even then ms / (secs * 1_000) * (secs * 1_000)
    else StartDay(ms / DAY_MS, UnitOf(secs)) * DAY_MS
  }

  // MARK: Buckets are intervals

  lemma DateOf(day: int)
    ensures ValidCivil(CivilFromDays(day)) && DaysFromCivil(CivilFromDays(day)) == day
  {
    DaysAreCivil(day);
  }

  lemma StartDateIsValid(date: Civil, unit: Unit)
    requires ValidCivil(date) && (unit == Month || unit == Quarter || unit == Year)
    ensures ValidCivil(StartDate(date, unit)) && (StartDate(date, unit) == date || Before(StartDate(date, unit), date))
    ensures StartDate(StartDate(date, unit), unit) == StartDate(date, unit)
  {
  }

  /** Dates and their days are in the same order. */
  lemma DatesAreOrdered(a: Civil, b: Civil)
    requires ValidCivil(a) && ValidCivil(b) && (a == b || Before(a, b))
    ensures DaysFromCivil(a) <= DaysFromCivil(b)
  {
    hide DaysFromCivil, CivilFromDays;
    CivilAreDays(a);
    CivilAreDays(b);
    if DaysFromCivil(b) < DaysFromCivil(a) {
      LaterDaysAreLaterDates(DaysFromCivil(b), DaysFromCivil(a));
    }
  }

  /** A bucket starts no later than its days, starts with itself, and later days have no earlier bucket. */
  lemma StartDayFloors(a: int, b: int, unit: Unit)
    requires unit != Even && a <= b
    ensures StartDay(a, unit) <= a && StartDay(StartDay(a, unit), unit) == StartDay(a, unit)
    ensures StartDay(a, unit) <= StartDay(b, unit)
  {
    if unit == Week {
      WeekFloors(a, b);
    } else {
      var x, y := CivilFromDays(a), CivilFromDays(b);
      hide DaysFromCivil, CivilFromDays, ValidCivil;
      DateOf(a);
      DateOf(b);
      if a < b {
        LaterDaysAreLaterDates(a, b);
      }
      StartDatesAreOrdered(x, y, unit);
      hide Before, StartDate;
      DatesAreOrdered(StartDate(x, unit), x);
      CivilAreDays(StartDate(x, unit));
      DatesAreOrdered(StartDate(x, unit), StartDate(y, unit));
    }
  }

  // The intervals the app offers beyond a day.
  const WEEK_SECS := 604_800
  const MONTH_SECS := 2_592_000
  const QUARTER_SECS := 7_776_000
  const YEAR_SECS := 31_536_000

  /** Weeks start on Mondays, as day 4 was, and the rest on the first of a month: of any, of each third, of January. */
  predicate StartsOn(day: int, secs: int) {
    var date := CivilFromDays(day);
    if secs == WEEK_SECS then day % 7 == 4
    else if secs == MONTH_SECS then date.day == 1
    else if secs == QUARTER_SECS then date.day == 1 && date.month in {1, 4, 7, 10}
    else date.day == 1 && date.month == 1
  }

  /** The bucket of a calendar interval starts at midnight of the latest day such a bucket can start on. */
  lemma BucketsFollowTheCalendar(ms: int, secs: int, other: int)
    requires secs in {WEEK_SECS, MONTH_SECS, QUARTER_SECS, YEAR_SECS}
    ensures var day := BucketStart(ms, secs) / DAY_MS;
      && BucketStart(ms, secs) == day * DAY_MS <= ms && StartsOn(day, secs)
      && (StartsOn(other, secs) && other * DAY_MS <= ms ==> other <= day)
  {
    var today, unit := ms / DAY_MS, UnitOf(secs);
    StartDayFloors(today, today, unit);
    StartsItself(StartDay(today, unit), secs);
    if StartsOn(other, secs) && other * DAY_MS <= ms {
      StartsItself(other, secs);
      StartDayFloors(other, today, unit);
    }
    hide StartDay, StartsOn;
  }

  lemma StartsItself(day: int, secs: int)
    requires secs in {WEEK_SECS, MONTH_SECS, QUARTER_SECS, YEAR_SECS}
    ensures UnitOf(secs) != Even && (StartsOn(day, secs) <==> StartDay(day, UnitOf(secs)) == day)
  {
    hide StartDay, CivilFromDays, DaysFromCivil, ValidCivil, StartDate;
    if secs == WEEK_SECS {
      WeeksStartOnMondays(day);
    } else {
      DateOf(day);
      StartsWithItself(day, UnitOf(secs));
      FirstOfItsKind(CivilFromDays(day), secs);
    }
  }

  lemma WeeksStartOnMondays(day: int)
    ensures StartDay(day, Week) == day <==> day % 7 == 4
  {
  }

  lemma StartsWithItself(day: int, unit: Unit)
    requires unit == Month || unit == Quarter || unit == Year
    ensures StartDay(day, unit) == day <==> StartDate(CivilFromDays(day), unit) == CivilFromDays(day)
  {
    hide DaysFromCivil, CivilFromDays, ValidCivil, StartDate;
    var date := CivilFromDays(day);
    DateOf(day);
    StartDateIsValid(date, unit);
    CivilAreDays(StartDate(date, unit));
    CivilAreDays(date);
  }

  lemma FirstOfItsKind(date: Civil, secs: int)
    requires ValidCivil(date) && secs in {MONTH_SECS, QUARTER_SECS, YEAR_SECS}
    ensures StartDate(date, UnitOf(secs)) == date <==>
      date.day == 1 && (secs == QUARTER_SECS ==> date.month in {1, 4, 7, 10}) && (secs == YEAR_SECS ==> date.month == 1)
  {
  }

  lemma WeekFloors(a: int, b: int)
    requires a <= b
    ensures StartDay(a, Week) <= a && StartDay(StartDay(a, Week), Week) == StartDay(a, Week) <= StartDay(b, Week)
  {
  }

  lemma StartDatesAreOrdered(x: Civil, y: Civil, unit: Unit)
    requires ValidCivil(x) && ValidCivil(y) && (x == y || Before(x, y))
      && (unit == Month || unit == Quarter || unit == Year)
    ensures ValidCivil(StartDate(x, unit)) && (StartDate(x, unit) == x || Before(StartDate(x, unit), x))
    ensures StartDate(StartDate(x, unit), unit) == StartDate(x, unit)
    ensures ValidCivil(StartDate(y, unit))
      && (StartDate(x, unit) == StartDate(y, unit) || Before(StartDate(x, unit), StartDate(y, unit)))
  {
    StartDateIsValid(x, unit);
    StartDateIsValid(y, unit);
  }

  lemma Floor(ms: int, n: int, q: int)
    requires n > 0
    ensures ms / n * n <= ms < ms / n * n + n
    ensures q * n <= ms < q * n + n ==> ms / n == q
  {
    var r := ms / n;
    if q * n <= ms < q * n + n {
      if r < q {
        Times(r + 1, q, n);
      } else if q < r {
        Times(q + 1, r, n);
      }
    }
  }

  lemma Times(a: int, b: int, n: int)
    requires a <= b && n > 0
    ensures a * n <= b * n && (a + 1) * n == a * n + n
  {
  }

  lemma EvenFloors(a: int, b: int, n: int)
    requires n > 0 && a <= b
    ensures a / n * n <= a && a / n * n / n * n == a / n * n && a / n * n <= b / n * n
  {
    var q, r := a / n, b / n;
    Floor(a, n, q);
    Floor(b, n, r);
    Times(q, q, n);
    Floor(q * n, n, q);
    if r < q {
      Times(r + 1, q, n);
      Times(r, r, n);
    } else {
      Times(q, r, n);
    }
  }

  lemma BucketFloors(a: int, b: int, secs: int)
    requires secs > 0 && a <= b
    ensures BucketStart(a, secs) <= a && BucketStart(BucketStart(a, secs), secs) == BucketStart(a, secs)
    ensures BucketStart(a, secs) <= BucketStart(b, secs)
  {
    hide StartDay;
    if UnitOf(secs) == Even {
      EvenFloors(a, b, secs * 1_000);
    } else {
      StartDayFloors(a / DAY_MS, b / DAY_MS, UnitOf(secs));
    }
  }

  // MARK: Buckets inside buckets

  /** Every bucket of `inner` lies in one bucket of `outer`: rounding down twice is rounding down once. */
  ghost predicate Nests(inner: int, outer: int)
    requires inner > 0 && outer > 0
  {
    forall ms: int :: BucketStart(BucketStart(ms, inner), outer) == BucketStart(ms, outer)
  }

  predicate Divides(inner: int, outer: int)
    requires inner > 0 && outer > 0
  {
    match (UnitOf(inner), UnitOf(outer))
    case (Even, Even) => outer % inner == 0
    case (Even, _) => DAY_SECS % inner == 0
    case (Week, Week) => true
    case (Month, Month) => true
    case (Month, Quarter) => true
    case (Month, Year) => true
    case (Quarter, Quarter) => true
    case (Quarter, Year) => true
    case (Year, Year) => true
    case _ => false
  }

  lemma Multiple(k: int, n: int, m: int, q: int)
    requires n > 0 && k == n * q
    ensures k * m == n * m * q
  {
  }

  lemma EvenInEven(ms: int, inner: int, outer: int)
    requires UnitOf(inner) == Even && UnitOf(outer) == Even && inner > 0 && outer > 0 && outer % inner == 0
    ensures BucketStart(BucketStart(ms, inner), outer) == BucketStart(ms, outer)
  {
    FloorInFloor(ms, inner * 1_000, outer / inner);
    assert inner * 1_000 * (outer / inner) == outer * 1_000 by {
      Multiple(outer, inner, 1_000, outer / inner);
    }
  }

  lemma FloorInFloor(ms: int, n: int, k: int)
    requires n > 0 && k > 0
    ensures n * k > 0 && ms / n * n / (n * k) == ms / (n * k)
  {
    var m := n * k;
    var q, r := ms / n, ms / m;
    Times(1, k, n);
    Floor(ms, n, q);
    Floor(ms, m, r);
    var low, high := r * k, r * k + k;
    Regroup(r, n, k);
    if q < low {
      Times(q + 1, low, n);
      Times(q, q, n);
    }
    if q >= high {
      Times(high, q, n);
    } else {
      Times(q + 1, high, n);
      Times(q, q, n);
    }
    Times(low, if q < low then low else q, n);
    Floor(q * n, m, r);
  }

  lemma Regroup(r: int, n: int, k: int)
    ensures r * (n * k) == r * k * n && r * (n * k) + n * k == (r * k + k) * n
  {
  }

  lemma EvenInCalendar(ms: int, inner: int, outer: int)
    requires UnitOf(inner) == Even && UnitOf(outer) != Even && inner > 0 && outer > 0 && DAY_SECS % inner == 0
    ensures BucketStart(BucketStart(ms, inner), outer) == BucketStart(ms, outer)
  {
    hide StartDay;
    FloorInFloor(ms, inner * 1_000, DAY_SECS / inner);
    assert inner * 1_000 * (DAY_SECS / inner) == DAY_MS by {
      Multiple(DAY_SECS, inner, 1_000, DAY_SECS / inner);
    }
  }

  lemma CalendarInCalendar(ms: int, inner: int, outer: int)
    requires UnitOf(inner) != Even && UnitOf(outer) != Even && inner > 0 && outer > 0 && Divides(inner, outer)
    ensures BucketStart(BucketStart(ms, inner), outer) == BucketStart(ms, outer)
  {
    hide CivilFromDays, DaysFromCivil;
    var day := ms / DAY_MS;
    StartDayFloors(day, day, UnitOf(inner));
    if UnitOf(inner) != Week {
      DateOf(day);
      StartDateIsValid(CivilFromDays(day), UnitOf(inner));
      CivilAreDays(StartDate(CivilFromDays(day), UnitOf(inner)));
    }
  }

  // MARK: Intervals that do not nest

  lemma SomeYears()
    ensures YearStart(1969) == 719_162 && YearStart(1970) == 719_527 && YearStart(1971) == 719_892
      && YearStart(1972) == 720_258
  {
  }

  lemma SomeDays()
    ensures DaysFromCivil(Civil(1970, 1, 1)) == 0 && DaysFromCivil(Civil(1970, 1, 12)) == 11
      && DaysFromCivil(Civil(1970, 1, 26)) == 25
    ensures DaysFromCivil(Civil(1970, 2, 1)) == 31 && DaysFromCivil(Civil(1970, 3, 30)) == 88
      && DaysFromCivil(Civil(1970, 4, 1)) == 90
    ensures DaysFromCivil(Civil(1970, 5, 1)) == 120 && DaysFromCivil(Civil(1970, 6, 1)) == 151
      && DaysFromCivil(Civil(1970, 7, 1)) == 181
    ensures DaysFromCivil(Civil(1970, 10, 1)) == 273 && DaysFromCivil(Civil(1970, 12, 28)) == 361
      && DaysFromCivil(Civil(1971, 1, 1)) == 365
    ensures DaysFromCivil(Civil(1972, 1, 1)) == 730 && DaysFromCivil(Civil(1973, 1, 1)) == 1096
  {
    FirstDays();
    LaterDays();
    hide DaysFromCivil;
  }

  lemma FirstDays()
    ensures DaysFromCivil(Civil(1970, 1, 1)) == 0 && DaysFromCivil(Civil(1970, 1, 12)) == 11
      && DaysFromCivil(Civil(1970, 1, 26)) == 25
    ensures DaysFromCivil(Civil(1970, 2, 1)) == 31 && DaysFromCivil(Civil(1970, 3, 30)) == 88
      && DaysFromCivil(Civil(1970, 4, 1)) == 90
    ensures DaysFromCivil(Civil(1970, 5, 1)) == 120
  {
    SomeYears();
    hide YearStart;
  }

  lemma LaterDays()
    ensures DaysFromCivil(Civil(1970, 6, 1)) == 151 && DaysFromCivil(Civil(1970, 7, 1)) == 181
    ensures DaysFromCivil(Civil(1970, 10, 1)) == 273 && DaysFromCivil(Civil(1970, 12, 28)) == 361
      && DaysFromCivil(Civil(1971, 1, 1)) == 365
    ensures DaysFromCivil(Civil(1972, 1, 1)) == 730 && DaysFromCivil(Civil(1973, 1, 1)) == 1096
  {
    SomeYears();
    hide YearStart;
  }

  lemma OnThe(date: Civil, day: int)
    requires ValidCivil(date) && DaysFromCivil(date) == day
    ensures CivilFromDays(day) == date
  {
    CivilAreDays(date);
  }

  /** Day `t` starts a bucket. */
  predicate Starts(t: int, unit: Unit)
    requires unit != Even
  {
    StartDay(t, unit) == t
  }

  lemma FirstOfUnit(date: Civil, unit: Unit)
    requires ValidCivil(date) && (unit == Month || unit == Quarter || unit == Year) && StartDate(date, unit) == date
    ensures Starts(DaysFromCivil(date), unit)
  {
    CivilAreDays(date);
  }

  /** Three days that start a bucket, and factors with which they add up to one day. */
  lemma StartsAddUpToADay(unit: Unit) returns (t: (int, int, int), k: (int, int, int))
    requires unit != Even
    ensures Starts(t.0, unit) && Starts(t.1, unit) && Starts(t.2, unit) && k.0 * t.0 + k.1 * t.1 + k.2 * t.2 == 1
  {
    hide DaysFromCivil, CivilFromDays;
    SomeDays();
    match unit {
      case Week =>
        t, k := (4, 11, 11), (3, -1, 0);
      case Month =>
        FirstOfUnit(Civil(1970, 4, 1), unit);
        FirstOfUnit(Civil(1970, 5, 1), unit);
        FirstOfUnit(Civil(1970, 6, 1), unit);
        t, k := (90, 120, 151), (1, -2, 1);
      case Quarter =>
        FirstOfUnit(Civil(1970, 4, 1), unit);
        FirstOfUnit(Civil(1970, 7, 1), unit);
        FirstOfUnit(Civil(1970, 10, 1), unit);
        t, k := (90, 181, 273), (1, -2, 1);
      case Year =>
        FirstOfUnit(Civil(1971, 1, 1), unit);
        FirstOfUnit(Civil(1972, 1, 1), unit);
        FirstOfUnit(Civil(1973, 1, 1), unit);
        t, k := (365, 730, 1096), (1, -2, 1);
    }
  }

  lemma DividesTheSum(n: int, a: int, b: int, c: int, k: (int, int, int))
    requires n > 0 && a % n == 0 && b % n == 0 && c % n == 0
    ensures (k.0 * a + k.1 * b + k.2 * c) % n == 0
  {
    var x, y, z := a / n, b / n, c / n;
    var q := k.0 * x + k.1 * y + k.2 * z;
    assert k.0 * a == k.0 * x * n && k.1 * b == k.1 * y * n && k.2 * c == k.2 * z * n;
    assert k.0 * a + k.1 * b + k.2 * c == q * n;
    DivideUniquely(q * n, n, q, 0);
  }

  /** A time that starts a bucket of `outer` but not of the even interval `inner`, which does not divide a day. */
  lemma UnevenStart(inner: int, outer: int) returns (ms: int)
    requires inner > 0 && outer > 0 && UnitOf(inner) == Even && UnitOf(outer) != Even && DAY_SECS % inner != 0
    ensures BucketStart(ms, outer) == ms && BucketStart(ms, inner) < ms
  {
    hide BucketStart, StartDay;
    var t, k := StartsAddUpToADay(UnitOf(outer));
    var i := UnevenOfThree(inner, t, k);
    var day := if i == 0 then t.0 else if i == 1 then t.1 else t.2;
    ms := day * DAY_MS;
    CalendarBucket(day, outer);
    EvenBucket(ms, inner);
  }

  lemma EvenBucket(ms: int, secs: int)
    requires secs > 0 && UnitOf(secs) == Even
    ensures BucketStart(ms, secs) == ms - ms % (secs * 1_000)
  {
    var n := secs * 1_000;
    assert ms == ms / n * n + ms % n;
  }

  lemma CalendarBucket(day: int, secs: int)
    requires secs > 0 && UnitOf(secs) != Even
    ensures BucketStart(day * DAY_MS, secs) == StartDay(day, UnitOf(secs)) * DAY_MS
  {
    hide StartDay;
    Floor(day * DAY_MS, DAY_MS, day);
  }

  lemma UnevenOfThree(inner: int, t: (int, int, int), k: (int, int, int)) returns (i: int)
    requires inner > 0 && DAY_SECS % inner != 0 && k.0 * t.0 + k.1 * t.1 + k.2 * t.2 == 1
    ensures 0 <= i < 3 && (if i == 0 then t.0 else if i == 1 then t.1 else t.2) * DAY_MS % (inner * 1_000) != 0
  {
    var n := inner * 1_000;
    var a, b, c := t.0 * DAY_MS, t.1 * DAY_MS, t.2 * DAY_MS;
    ADayIsNotAMultiple(inner, k, t);
    i := if a % n != 0 then 0 else if b % n != 0 then 1 else 2;
    if a % n == 0 && b % n == 0 && c % n == 0 {
      DividesTheSum(n, a, b, c, k);
    }
  }

  lemma ADayIsNotAMultiple(inner: int, k: (int, int, int), t: (int, int, int))
    requires inner > 0 && DAY_SECS % inner != 0 && k.0 * t.0 + k.1 * t.1 + k.2 * t.2 == 1
    ensures (k.0 * (t.0 * DAY_MS) + k.1 * (t.1 * DAY_MS) + k.2 * (t.2 * DAY_MS)) % (inner * 1_000) != 0
  {
    var n := inner * 1_000;
    assert k.0 * (t.0 * DAY_MS) + k.1 * (t.1 * DAY_MS) + k.2 * (t.2 * DAY_MS) == DAY_MS;
    if DAY_MS % n == 0 {
      var q := DAY_MS / n;
      assert DAY_MS == n * q == inner * q * 1_000;
      DivideUniquely(DAY_SECS, inner, q, 0);
    }
  }

  lemma Within(unit: Unit, day: int, start: int)
    requires unit != Even && StartDay(day, unit) == start && start <= day
    ensures forall d :: start <= d <= day ==> StartDay(d, unit) == start
  {
    hide StartDay;
    forall d | start <= d <= day ensures StartDay(d, unit) == start {
      StartDayFloors(start, d, unit);
      StartDayFloors(d, day, unit);
      StartDayFloors(day, day, unit);
    }
  }

  /** A time in a bucket of `inner` that the bucket's start is not in the same bucket of `outer` as. */
  lemma Escapes(inner: int, outer: int) returns (ms: int)
    requires inner > 0 && outer > 0 && !Divides(inner, outer)
    ensures BucketStart(BucketStart(ms, inner), outer) != BucketStart(ms, outer)
  {
    hide BucketStart, StartDay, DaysFromCivil, CivilFromDays;
    var i, o := UnitOf(inner), UnitOf(outer);
    if i == Even && o == Even {
      ms := outer * 1_000;
      EvenEscapes(inner, outer);
    } else if i == Even {
      ms := UnevenStart(inner, outer);
      BucketFloors(BucketStart(ms, inner), BucketStart(ms, inner), outer);
    } else if o == Even {
      ms := (if i == Week then 4 else 0) * DAY_MS + outer * 1_000;
      CalendarEscapesEven(inner, outer, if i == Week then 4 else 0);
    } else {
      var day := CalendarEscapes(i, o);
      ms := day * DAY_MS;
      CalendarBucket(day, inner);
      CalendarBucket(day, outer);
      CalendarBucket(StartDay(day, i), outer);
    }
  }

  lemma EvenEscapes(inner: int, outer: int)
    requires inner > 0 && outer > 0 && UnitOf(inner) == Even && UnitOf(outer) == Even && outer % inner != 0
    ensures BucketStart(BucketStart(outer * 1_000, inner), outer) != BucketStart(outer * 1_000, outer)
  {
    hide BucketStart;
    var ms := outer * 1_000;
    EvenBucket(ms, outer);
    EvenBucket(ms, inner);
    DivideUniquely(ms, ms, 1, 0);
    var n := inner * 1_000;
    if ms % n == 0 {
      var q := ms / n;
      assert ms == n * q == inner * q * 1_000;
      DivideUniquely(outer, inner, q, 0);
    }
    BucketFloors(BucketStart(ms, inner), BucketStart(ms, inner), outer);
  }

  lemma CalendarEscapesEven(inner: int, outer: int, start: int)
    requires inner > 0 && outer > 0 && UnitOf(inner) != Even && UnitOf(outer) == Even
    requires start == if UnitOf(inner) == Week then 4 else 0
    ensures var ms := start * DAY_MS + outer * 1_000;
      BucketStart(BucketStart(ms, inner), outer) != BucketStart(ms, outer)
  {
    var ms, n, unit := start * DAY_MS + outer * 1_000, outer * 1_000, UnitOf(inner);
    FirstWeekIsOneBucket(unit, start);
    hide StartDay, Divides;
    Floor(ms, DAY_MS, ms / DAY_MS);
    assert start <= ms / DAY_MS <= start + 6;
    var t := start * DAY_MS;
    assert BucketStart(ms, inner) == t;
    var q := t / n;
    Floor(t, n, q);
    Times(q, q, n);
    Floor(ms, n, q + 1);
  }

  lemma FirstWeekIsOneBucket(unit: Unit, start: int)
    requires unit != Even && start == if unit == Week then 4 else 0
    ensures forall d :: start <= d <= start + 6 ==> StartDay(d, unit) == start
  {
    hide DaysFromCivil, CivilFromDays;
    if unit == Week {
      Within(Week, 10, 4);
    } else {
      SomeDays();
      OnThe(Civil(1970, 1, 12), 11);
      Within(unit, 11, 0);
    }
  }

  lemma CalendarEscapes(inner: Unit, outer: Unit) returns (day: int)
    requires inner != Even && outer != Even
    requires (inner == Week && outer != Week) || (inner != Week && outer == Week)
      || (inner == Quarter && outer == Month) || (inner == Year && (outer == Month || outer == Quarter))
    ensures StartDay(StartDay(day, inner), outer) != StartDay(day, outer)
  {
    hide DaysFromCivil, CivilFromDays;
    SomeDays();
    OnThe(Civil(1970, 1, 1), 0);
    OnThe(Civil(1970, 1, 12), 11);
    OnThe(Civil(1970, 1, 26), 25);
    OnThe(Civil(1970, 2, 1), 31);
    OnThe(Civil(1970, 3, 30), 88);
    OnThe(Civil(1970, 4, 1), 90);
    OnThe(Civil(1970, 12, 28), 361);
    OnThe(Civil(1971, 1, 1), 365);
    day := if outer == Week then 11
           else if inner == Week then (if outer == Month then 31 else if outer == Quarter then 90 else 365)
           else if outer == Month then 31 else 90;
  }

  /**
   * Which intervals nest, for every pair: two intervals below a week when one divides the other; one
   * below a week in a calendar unit when it divides a day; months in quarters in years; and a week in
   * nothing but weeks, although four of them are long enough to count as a month.
   */
  lemma NestsExactlyWhenDividing(inner: int, outer: int)
    requires inner > 0 && outer > 0
    ensures Nests(inner, outer) <==> Divides(inner, outer)
  {
    if Divides(inner, outer) {
      hide BucketStart, StartDay;
      forall ms: int ensures BucketStart(BucketStart(ms, inner), outer) == BucketStart(ms, outer) {
        if UnitOf(inner) != Even {
          CalendarInCalendar(ms, inner, outer);
        } else if UnitOf(outer) != Even {
          EvenInCalendar(ms, inner, outer);
        } else {
          EvenInEven(ms, inner, outer);
        }
      }
    } else {
      hide BucketStart;
      var ms := Escapes(inner, outer);
    }
  }

  lemma FourWeeksAreNotAMonth()
    ensures 4 * 604_800 == 2_419_200 && UnitOf(2_419_200) == Month && !Nests(604_800, 2_419_200)
  {
    NestsExactlyWhenDividing(604_800, 2_419_200);
  }
}
