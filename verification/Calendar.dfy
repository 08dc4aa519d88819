// The proleptic Gregorian conversions of src/format.rs, and the reference calendar they are
// proved against: a calendar that only knows how to step from one day to the next.
module Calendar {

  /** A calendar date. Any year is allowed, including 0 and the negative ones. */
  datatype Civil = Civil(year: int, month: int, day: int)

  predicate IsLeap(year: int) {
    year % 4 == 0 && (year % 100 != 0 || year % 400 == 0)
  }

  /** The rule `parse_timestamp` checks a day against. */
  function DaysInMonth(year: int, month: int): int {
    if month == 2 then 28 + (if IsLeap(year) then 1 else 0)
    else if month == 4 || month == 6 || month == 9 || month == 11 then 30
    else 31
  }

  predicate ValidCivil(c: Civil) {
    1 <= c.month <= 12 && 1 <= c.day <= DaysInMonth(c.year, c.month)
  }

  // MARK: The conversions

  function DaysFromCivil(c: Civil): int {
    YearStart(MarchYear(c)) + DayOfYear(c) - 719_468
  }

  /** Years are counted from March, so a leap day is the last day of its year. */
  function MarchYear(c: Civil): int {
    if c.month <= 2 then c.year - 1 else c.year
  }

  function DayOfYear(c: Civil): int {
    var monthPrime := (c.month + 9) % 12;
    (153 * monthPrime + 2) / 5 + c.day - 1
  }

  function YearStart(year: int): int {
    var era := year / 400;
    var yearOfEra := year - era * 400;
    era * 146_097 + (yearOfEra * 365 + yearOfEra / 4 - yearOfEra / 100)
  }

  function CivilFromDays(daysSinceEpoch: int): Civil {
    var days := daysSinceEpoch + 719_468;
    var era := days / 146_097;
    var dayOfEra := days % 146_097;
    var yearOfEra := YearOfEra(dayOfEra);
    var dayOfYear := dayOfEra - (365 * yearOfEra + yearOfEra / 4 - yearOfEra / 100);
    CivilInYear(yearOfEra + era * 400, dayOfYear)
  }

  function YearOfEra(dayOfEra: int): int {
    (dayOfEra - dayOfEra / 1_460 + dayOfEra / 36_524 - dayOfEra / 146_096) / 365
  }

  function CivilInYear(marchYear: int, dayOfYear: int): Civil {
    var monthPrime := (5 * dayOfYear + 2) / 153;
    var day := dayOfYear - (153 * monthPrime + 2) / 5 + 1;
    var month := if monthPrime < 10 then monthPrime + 3 else monthPrime - 9;
    Civil(marchYear + (if month <= 2 then 1 else 0), month, day)
  }

  // MARK: The reference calendar

  const EPOCH := Civil(1970, 1, 1)

  function NextDay(c: Civil): Civil {
    if c.day < DaysInMonth(c.year, c.month) then Civil(c.year, c.month, c.day + 1)
    else if c.month < 12 then Civil(c.year, c.month + 1, 1)
    else Civil(c.year + 1, 1, 1)
  }

  function PreviousDay(c: Civil): Civil {
    if c.day > 1 then Civil(c.year, c.month, c.day - 1)
    else if c.month > 1 then Civil(c.year, c.month - 1, DaysInMonth(c.year, c.month - 1))
    else Civil(c.year - 1, 12, 31)
  }

  /** The date `n` days after 1970-01-01, counted one day at a time. */
  function CountedDate(n: int): Civil
    decreases if n < 0 then -n else n
  {
    if n == 0 then EPOCH
    else if n > 0 then NextDay(CountedDate(n - 1))
    else PreviousDay(CountedDate(n + 1))
  }

  /** Calendar order. */
  predicate Before(a: Civil, b: Civil) {
    a.year < b.year || (a.year == b.year && (a.month < b.month || (a.month == b.month && a.day < b.day)))
  }

  // MARK: Years of an era

  /** Days of the era before its year `y` (years counted from March). */
  function EraDays(y: int): int {
    365 * y + y / 4 - y / 100
  }

  /** The last day of the era year `y`: the year after February's end has the leap day. */
  function YearLength(y: int): int {
    if (y + 1) % 4 == 0 && ((y + 1) % 100 != 0 || (y + 1) % 400 == 0) then 366 else 365
  }

  /** The closed formula for the year is exact: the four divisions undo the leap rule. */
  lemma YearOfEraExact(y: int, dayOfYear: int)
    requires 0 <= y < 400
    requires 0 <= dayOfYear < YearLength(y)
    ensures YearOfEra(EraDays(y) + dayOfYear) == y
  {
    var century, quad, r := y / 100, y % 100 / 4, y % 100 % 4;
    YearParts(century, quad, r);
    YearOfEraFromParts(century, quad, r, dayOfYear);
  }

  /** A year of the era from its century, its four-year block and its place in the block. */
  lemma YearParts(century: int, quad: int, r: int)
    requires 0 <= century < 4 && 0 <= quad < 25 && 0 <= r < 4
    ensures var y := 100 * century + 4 * quad + r;
      && EraDays(y) == 36_524 * century + 1461 * quad + 365 * r
      && YearLength(y) == if r == 3 && (quad != 24 || century == 3) then 366 else 365
  {
    var y := 100 * century + 4 * quad + r;
    DivideUniquely(y, 100, century, 4 * quad + r);
    DivideUniquely(y, 4, 25 * century + quad, r);
  }

  lemma YearOfEraFromParts(century: int, quad: int, r: int, dayOfYear: int)
    requires 0 <= century < 4 && 0 <= quad < 25 && 0 <= r < 4
    requires 0 <= dayOfYear < if r == 3 && (quad != 24 || century == 3) then 366 else 365
    ensures YearOfEra(36_524 * century + 1461 * quad + 365 * r + dayOfYear) == 100 * century + 4 * quad + r
  {
    var rest := 365 * r + dayOfYear;
    var doe := 36_524 * century + 1461 * quad + rest;
    DivideUniquely(doe, 36_524, if doe == 146_096 then 4 else century,
      if doe == 146_096 then 0 else 1461 * quad + rest);
    // `carry` is 1 late in the year before a leap day, when 1460-day blocks run ahead of 1461.
    var carry := if 24 * century + quad + rest >= 1460 then 1 else 0;
    DivideUniquely(doe, 1460, 25 * century + quad + carry, 24 * century + quad + rest - 1460 * carry);
    DivideUniquely(doe - doe / 1460 + century, 365, 100 * century + 4 * quad + r, dayOfYear - carry);
  }

  lemma DivideUniquely(n: int, d: int, q: int, r: int)
    requires 0 <= r < d && n == d * q + r
    ensures n / d == q && n % d == r
  {
    MulSign(d, n / d - q);
  }

  lemma MulSign(d: int, x: int)
    requires d > 0
    ensures x >= 1 ==> d * x >= d
    ensures x <= -1 ==> d * x <= -d
  {
  }

  lemma YearOfEraBounds(dayOfEra: int) returns (y: int)
    requires 0 <= dayOfEra < 146_097
    ensures 0 <= y < 400 && EraDays(y) <= dayOfEra < EraDays(y) + YearLength(y)
  {
    y := 0;
    while dayOfEra >= EraDays(y) + YearLength(y)
      invariant 0 <= y < 400 && EraDays(y) <= dayOfEra
      decreases 400 - y
    {
      y := y + 1;
    }
  }

  // MARK: Months of a year counted from March

  /** Days of a March-based year before its month `monthPrime` (0 is March, 11 is February). */
  function MonthStart(monthPrime: int): int {
    (153 * monthPrime + 2) / 5
  }

  function MonthOf(monthPrime: int): int {
    if monthPrime < 10 then monthPrime + 3 else monthPrime - 9
  }

  /** Every month but February ends where the next one starts, whatever the year. */
  lemma MonthTable(monthPrime: int, year: int)
    requires 0 <= monthPrime < 11
    ensures DaysInMonth(year, MonthOf(monthPrime)) == MonthStart(monthPrime + 1) - MonthStart(monthPrime)
  {
    var m := monthPrime;
    assert m == 0 || m == 1 || m == 2 || m == 3 || m == 4 || m == 5 || m == 6 || m == 7 || m == 8 || m == 9 || m == 10;
  }

  lemma MonthOfDay(dayOfYear: int)
    requires 0 <= dayOfYear <= 365
    ensures var m := (5 * dayOfYear + 2) / 153; 0 <= m <= 11 && MonthStart(m) <= dayOfYear < MonthStart(m + 1)
  {
  }

  lemma DayOfMonth(monthPrime: int, dayOfYear: int)
    requires 0 <= monthPrime <= 11 && MonthStart(monthPrime) <= dayOfYear < MonthStart(monthPrime + 1)
    ensures (5 * dayOfYear + 2) / 153 == monthPrime
  {
  }

  /** The leap day the era counts last in its year is 29 February of the next civil year. */
  lemma LeapShift(y: int, era: int)
    ensures MarchLength(y + 400 * era) == YearLength(y)
  {
    ShiftMod(y + 1, 100 * era, 4);
    ShiftMod(y + 1, 4 * era, 100);
    ShiftMod(y + 1, era, 400);
  }

  lemma ShiftMod(n: int, k: int, d: int)
    requires d > 0
    ensures (n + d * k) % d == n % d && (n + d * k) / d == n / d + k
  {
    DivideUniquely(n + d * k, d, n / d + k, n % d);
  }

  // MARK: The year of a day

  /** The days of a March-based year: its leap day belongs to February of the next civil year. */
  function MarchLength(year: int): int {
    if IsLeap(year + 1) then 366 else 365
  }

  lemma DayOfYearInverts(year: int, dayOfYear: int)
    requires 0 <= dayOfYear < MarchLength(year)
    ensures CivilFromDays(YearStart(year) + dayOfYear - 719_468) == CivilInYear(year, dayOfYear)
  {
    hide YearOfEra, CivilInYear, IsLeap, YearLength;
    var era, y := year / 400, year % 400;
    LeapShift(y, era);
    YearOfEraExact(y, dayOfYear);
    EraFits(y, dayOfYear);
    DivideUniquely(YearStart(year) + dayOfYear, 146_097, era, EraDays(y) + dayOfYear);
  }

  lemma EraFits(y: int, dayOfYear: int)
    requires 0 <= y < 400 && 0 <= dayOfYear < YearLength(y)
    ensures 0 <= EraDays(y) + dayOfYear < 146_097
  {
  }

  lemma FindYear(days: int) returns (year: int, dayOfYear: int)
    ensures days + 719_468 == YearStart(year) + dayOfYear
    ensures 0 <= dayOfYear < MarchLength(year)
  {
    var era, doe := (days + 719_468) / 146_097, (days + 719_468) % 146_097;
    var y := YearOfEraBounds(doe);
    year, dayOfYear := y + 400 * era, doe - EraDays(y);
    LeapShift(y, era);
    DivideUniquely(year, 400, era, y);
  }

  /** Consecutive years meet: the next one starts where this one ends. */
  lemma YearTurns(year: int)
    ensures YearStart(year + 1) == YearStart(year) + MarchLength(year)
  {
    var era, y := year / 400, year % 400;
    LeapShift(y, era);
    if y < 399 {
      DivideUniquely(year + 1, 400, era, y + 1);
      EraDaysStep(y);
    } else {
      DivideUniquely(year + 1, 400, era + 1, 0);
    }
  }

  lemma EraDaysStep(y: int)
    requires 0 <= y < 399
    ensures EraDays(y + 1) == EraDays(y) + YearLength(y)
  {
  }

  // MARK: The day of a year

  lemma CivilInYearInverts(year: int, dayOfYear: int)
    requires 0 <= dayOfYear < MarchLength(year)
    ensures var c := CivilInYear(year, dayOfYear); ValidCivil(c) && MarchYear(c) == year && DayOfYear(c) == dayOfYear
  {
    var m := (5 * dayOfYear + 2) / 153;
    MonthOfDay(dayOfYear);
    assert (MonthOf(m) + 9) % 12 == m;
    if m < 11 {
      MonthTable(m, CivilInYear(year, dayOfYear).year);
    }
  }

  lemma CivilHasDayOfYear(c: Civil)
    requires ValidCivil(c)
    ensures 0 <= DayOfYear(c) < MarchLength(MarchYear(c))
    ensures CivilInYear(MarchYear(c), DayOfYear(c)) == c
  {
    var m := (c.month + 9) % 12;
    assert MonthOf(m) == c.month;
    if m < 11 {
      MonthTable(m, c.year);
    }
    DayOfMonth(m, DayOfYear(c));
  }

  // MARK: The two conversions are inverse

  lemma DaysAreCivil(days: int)
    ensures ValidCivil(CivilFromDays(days))
    ensures DaysFromCivil(CivilFromDays(days)) == days
  {
    hide CivilInYear, YearStart, CivilFromDays;
    var year, dayOfYear := FindYear(days);
    DayOfYearInverts(year, dayOfYear);
    CivilInYearInverts(year, dayOfYear);
  }

  lemma CivilAreDays(c: Civil)
    requires ValidCivil(c)
    ensures CivilFromDays(DaysFromCivil(c)) == c
  {
    hide CivilInYear, YearStart, CivilFromDays, DayOfYear;
    CivilHasDayOfYear(c);
    DayOfYearInverts(MarchYear(c), DayOfYear(c));
  }

  // MARK: Agreement with the reference calendar

  lemma NextDayIsLater(c: Civil)
    requires ValidCivil(c)
    ensures ValidCivil(NextDay(c)) && DaysFromCivil(NextDay(c)) == DaysFromCivil(c) + 1
  {
    hide YearStart, DaysInMonth;
    if c.day < DaysInMonth(c.year, c.month) {
    } else if c.month == 2 {
      YearTurns(c.year - 1);
      FebruaryAndMarch(c.year);
    } else {
      MonthTurns(c);
    }
  }

  lemma FebruaryAndMarch(year: int)
    ensures DaysInMonth(year, 2) == 28 + (if IsLeap(year) then 1 else 0) && DaysInMonth(year, 3) >= 1
  {
  }

  lemma MonthTurns(c: Civil)
    requires ValidCivil(c) && c.month != 2 && c.day == DaysInMonth(c.year, c.month)
    ensures var next := NextDay(c);
      ValidCivil(next) && MarchYear(next) == MarchYear(c) && DayOfYear(next) == DayOfYear(c) + 1
  {
    var monthPrime := (c.month + 9) % 12;
    MonthTable(monthPrime, c.year);
    assert MonthOf(monthPrime) == c.month;
    NextMonthPrime(c.month);
    hide DaysInMonth, MonthOf;
    assert DayOfYear(c) == MonthStart(monthPrime) + c.day - 1;
    assert DayOfYear(Civil(c.year, c.month % 12 + 1, 1)) == MonthStart(monthPrime + 1);
    FirstIsValid(c);
  }

  lemma NextMonthPrime(month: int)
    requires 1 <= month <= 12 && month != 2
    ensures (month % 12 + 1 + 9) % 12 == (month + 9) % 12 + 1
  {
  }

  lemma FirstIsValid(c: Civil)
    requires ValidCivil(c) && c.month != 2 && c.day == DaysInMonth(c.year, c.month)
    ensures var next := NextDay(c);
      ValidCivil(next) && next.day == 1 && next.month == c.month % 12 + 1 && MarchYear(next) == MarchYear(c)
  {
  }

  lemma PreviousDayIsEarlier(c: Civil)
    requires ValidCivil(c)
    ensures ValidCivil(PreviousDay(c)) && NextDay(PreviousDay(c)) == c
  {
  }

  lemma EpochIsDayZero()
    ensures DaysFromCivil(EPOCH) == 0 && ValidCivil(EPOCH)
  {
  }

  /**
   * The closed conversion is the day-by-day calendar, on every integer day: the epoch is day 0,
   * and each step of the reference calendar is one day.
   */
  lemma {:induction false} ConversionCountsDays(n: int)
    ensures CivilFromDays(n) == CountedDate(n)
    decreases if n < 0 then -n else n
  {
    hide CivilFromDays, DaysFromCivil;
    if n == 0 {
      EpochIsDayZero();
      CivilAreDays(EPOCH);
    } else if n > 0 {
      ConversionCountsDays(n - 1);
      DaysAreCivil(n - 1);
      NextDayIsLater(CivilFromDays(n - 1));
      CivilAreDays(NextDay(CivilFromDays(n - 1)));
    } else {
      ConversionCountsDays(n + 1);
      var later := CivilFromDays(n + 1);
      DaysAreCivil(n + 1);
      PreviousDayIsEarlier(later);
      NextDayIsLater(PreviousDay(later));
      CivilAreDays(PreviousDay(later));
    }
  }

  /** Later days have later dates, so comparing dates compares days. */
  lemma {:induction false} LaterDaysAreLaterDates(a: int, b: int)
    requires a < b
    ensures Before(CivilFromDays(a), CivilFromDays(b))
    decreases b - a
  {
    hide CivilFromDays, DaysFromCivil;
    DaysAreCivil(b - 1);
    NextDayIsLater(CivilFromDays(b - 1));
    CivilAreDays(NextDay(CivilFromDays(b - 1)));
    if a < b - 1 {
      LaterDaysAreLaterDates(a, b - 1);
    }
  }
}
