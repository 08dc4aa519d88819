// Folding candles into candles of a longer interval: src/host/pine_host.rs. Prices and volumes are
// exact numbers here.
module Candles {
  import opened Calendar
  import opened Buckets
  import opened Text

  datatype Kline = Kline(openTime: int, closeTime: int, open: real, high: real, low: real, close: real, volume: real)

  function Higher(a: real, b: real): real {
    if a < b then b else a
  }

  function Lower(a: real, b: real): real {
    if b < a then b else a
  }

  function Started(candle: Kline, bucket: int, secs: int): Kline {
    Kline(bucket, bucket + secs * 1_000 - 1, candle.open, candle.high, candle.low, candle.close, candle.volume)
  }

  function Extended(last: Kline, candle: Kline): Kline {
    last.(high := Higher(last.high, candle.high), low := Lower(last.low, candle.low), close := candle.close,
          volume := last.volume + candle.volume)
  }

  /** One more candle: into the last bucket if it belongs there, or into a new one. */
  function Merged(folded: seq<Kline>, candle: Kline, secs: int): seq<Kline>
    requires secs > 0
  {
    var bucket, n := BucketStart(candle.openTime, secs), |folded| - 1;
    if folded != [] && folded[n].openTime == bucket then folded[..n] + [Extended(folded[n], candle)]
    else folded + [Started(candle, bucket, secs)]
  }

  function Fold(candles: seq<Kline>, secs: int): seq<Kline>
    requires secs > 0
  {
    if candles == [] then [] else Merged(Fold(candles[..|candles| - 1], secs), candles[|candles| - 1], secs)
  }

  method FoldCandles(candles: seq<Kline>, interval: int) returns (folded: seq<Kline>)
    requires interval > 0
    ensures folded == Fold(candles, interval)
  {
    folded := [];
    for i := 0 to |candles|
      invariant folded == Fold(candles[..i], interval)
    {
      var candle := candles[i];
      assert candles[..i + 1][..i] == candles[..i];
      var bucket := BucketStart(candle.openTime, interval);
      var n := |folded| - 1;
      if n >= 0 && folded[n].openTime == bucket {
        var last := folded[n];
        last := last.(high := Higher(last.high, candle.high));
        last := last.(low := Lower(last.low, candle.low));
        last := last.(close := candle.close);
        last := last.(volume := last.volume + candle.volume);
        folded := folded[n := last];
      } else {
        folded := folded + [Kline(bucket, bucket + interval * 1_000 - 1, candle.open, candle.high, candle.low,
          candle.close, candle.volume)];
      }
    }
    assert candles[..|candles|] == candles;
  }

  // MARK: Folding twice

  lemma {:induction false} FoldOfFold(candles: seq<Kline>, inner: int, outer: int)
    requires inner > 0 && outer > 0 && Nests(inner, outer)
    ensures Fold(Fold(candles, inner), outer) == Fold(candles, outer)
  {
    if candles != [] {
      var front, c := candles[..|candles| - 1], candles[|candles| - 1];
      FoldOfFold(front, inner, outer);
      var once := Fold(front, inner);
      hide BucketStart, Fold;
      assert Fold(candles, inner) == Merged(once, c, inner)
        && Fold(candles, outer) == Merged(Fold(front, outer), c, outer) by {
        FoldLast(candles, inner);
        FoldLast(candles, outer);
      }
      assert BucketStart(BucketStart(c.openTime, inner), outer) == BucketStart(c.openTime, outer);
      MergeIntoFold(once, c, inner, outer);
    }
  }

  lemma FoldLast(candles: seq<Kline>, secs: int)
    requires secs > 0 && candles != []
    ensures Fold(candles, secs) == Merged(Fold(candles[..|candles| - 1], secs), candles[|candles| - 1], secs)
  {
  }

  /** Merging a candle before folding is merging it after. */
  lemma MergeIntoFold(once: seq<Kline>, c: Kline, inner: int, outer: int)
    requires inner > 0 && outer > 0
    requires BucketStart(BucketStart(c.openTime, inner), outer) == BucketStart(c.openTime, outer)
    ensures Fold(Merged(once, c, inner), outer) == Merged(Fold(once, outer), c, outer)
  {
    hide BucketStart, Fold;
    var bucket, n := BucketStart(c.openTime, inner), |once| - 1;
    var merged := Merged(once, c, inner);
    FoldLast(merged, outer);
    if once != [] && once[n].openTime == bucket {
      FoldLast(once, outer);
      assert merged[..|merged| - 1] == once[..n];
      var x, last := Fold(once[..n], outer), once[n];
      hide Merged;
      MergeTwice(x, last, c, outer);
    } else {
      assert merged[..|merged| - 1] == once;
    }
  }

  lemma MergeTwice(x: seq<Kline>, a: Kline, b: Kline, secs: int)
    requires secs > 0 && BucketStart(a.openTime, secs) == BucketStart(b.openTime, secs)
    ensures Merged(Merged(x, a, secs), b, secs) == Merged(x, Extended(a, b), secs)
  {
    hide BucketStart;
    var n := |x| - 1;
    if x != [] && x[n].openTime == BucketStart(a.openTime, secs) {
      assert (x[..n] + [Extended(x[n], a)])[..n] == x[..n];
      assert Extended(Extended(x[n], a), b) == Extended(x[n], Extended(a, b));
    } else {
      assert Extended(Started(a, BucketStart(a.openTime, secs), secs), b)
        == Started(Extended(a, b), BucketStart(a.openTime, secs), secs);
      assert (x + [Started(a, BucketStart(a.openTime, secs), secs)])[..|x|] == x;
    }
  }

  /**
   * Folding to one interval and then to another is folding to the second at once, for all candles,
   * exactly when the first nests in the second.
   */
  lemma FoldsComposeExactlyWhenDividing(inner: int, outer: int)
    requires inner > 0 && outer > 0
    ensures (forall candles :: Fold(Fold(candles, inner), outer) == Fold(candles, outer)) <==> Divides(inner, outer)
  {
    NestsExactlyWhenDividing(inner, outer);
    hide Divides;
    if Nests(inner, outer) {
      forall candles: seq<Kline> ensures Fold(Fold(candles, inner), outer) == Fold(candles, outer) {
        FoldOfFold(candles, inner, outer);
      }
    } else {
      var ms: int :| BucketStart(BucketStart(ms, inner), outer) != BucketStart(ms, outer);
      var one := Kline(ms, ms, 1.0, 1.0, 1.0, 1.0, 1.0);
      FoldOne(one, inner);
      FoldOne(one, outer);
      FoldOne(Started(one, BucketStart(ms, inner), inner), outer);
      hide BucketStart;
      assert Fold(Fold([one], inner), outer)[0].openTime != Fold([one], outer)[0].openTime;
    }
  }

  lemma FoldOne(c: Kline, secs: int)
    requires secs > 0
    ensures Fold([c], secs) == [Started(c, BucketStart(c.openTime, secs), secs)]
  {
    hide BucketStart;
    assert [c][..0] == [] && Fold([], secs) == [];
  }

  // MARK: What a folded candle is

  predicate Ordered(candles: seq<Kline>) {
    forall i, j :: 0 <= i < j < |candles| ==> candles[i].openTime <= candles[j].openTime
  }

  predicate StrictlyOrdered(candles: seq<Kline>) {
    forall i, j :: 0 <= i < j < |candles| ==> candles[i].openTime < candles[j].openTime
  }

  /** The candles of one bucket. */
  function Members(candles: seq<Kline>, secs: int, bucket: int): seq<Kline>
    requires secs > 0
  {
    if candles == [] then []
    else
      var n := |candles| - 1;
      Members(candles[..n], secs, bucket)
        + if BucketStart(candles[n].openTime, secs) == bucket then [candles[n]] else []
  }

  function Highest(candles: seq<Kline>): real
    requires candles != []
  {
    var n := |candles| - 1;
    if n == 0 then candles[0].high else Higher(Highest(candles[..n]), candles[n].high)
  }

  function Lowest(candles: seq<Kline>): real
    requires candles != []
  {
    var n := |candles| - 1;
    if n == 0 then candles[0].low else Lower(Lowest(candles[..n]), candles[n].low)
  }

  function Volume(candles: seq<Kline>): real {
    if candles == [] then 0.0 else Volume(candles[..|candles| - 1]) + candles[|candles| - 1].volume
  }

  /** First open, extremes, last close and summed volume. */
  function Summary(members: seq<Kline>, bucket: int, secs: int): Kline
    requires members != []
  {
    Kline(bucket, bucket + secs * 1_000 - 1, members[0].open, Highest(members), Lowest(members),
      members[|members| - 1].close, Volume(members))
  }

  predicate IsSummaryOf(folded: Kline, candles: seq<Kline>, secs: int)
    requires secs > 0
  {
    var members := Members(candles, secs, folded.openTime);
    members != [] && folded == Summary(members, folded.openTime, secs)
  }

  lemma {:induction false} HighestIsAMaximum(candles: seq<Kline>)
    requires candles != []
    ensures forall c <- candles :: Lowest(candles) <= c.low && c.high <= Highest(candles)
    ensures (exists c <- candles :: c.high == Highest(candles)) && (exists c <- candles :: c.low == Lowest(candles))
  {
    var front, last := candles[..|candles| - 1], candles[|candles| - 1];
    assert candles == front + [last];
    if front != [] {
      HighestIsAMaximum(front);
      assert Highest(candles) == Higher(Highest(front), last.high) && Lowest(candles) == Lower(Lowest(front), last.low);
      hide Highest, Lowest;
      var h :| h in front && h.high == Highest(front);
      var l :| l in front && l.low == Lowest(front);
      assert h in candles && l in candles && last in candles;
    }
  }

  /**
   * Folding candles in time order gives one candle per bucket, in strictly increasing order: a
   * candle for exactly the buckets that have candles, and each the summary of all of its own.
   */
  lemma {:induction false} FoldIsSummaries(candles: seq<Kline>, secs: int)
    requires secs > 0 && Ordered(candles)
    ensures StrictlyOrdered(Fold(candles, secs))
    ensures forall k <- Fold(candles, secs) :: IsSummaryOf(k, candles, secs)
    ensures forall c <- candles :: exists k <- Fold(candles, secs) :: k.openTime == BucketStart(c.openTime, secs)
    ensures candles != [] ==> (
      && Fold(candles, secs) != []
      && Fold(candles, secs)[|Fold(candles, secs)| - 1].openTime == BucketStart(candles[|candles| - 1].openTime, secs))
  {
    hide BucketStart, Merged, IsSummaryOf;
    if candles != [] {
      var n := |candles| - 1;
      var front, c := candles[..n], candles[n];
      FoldIsSummaries(front, secs);
      var before, after, bucket := Fold(front, secs), Fold(candles, secs), BucketStart(c.openTime, secs);
      if front != [] {
        BucketFloors(front[n - 1].openTime, c.openTime, secs);
      }
      NewestBucket(before, c, secs);
      forall k | k in after ensures IsSummaryOf(k, candles, secs) {
        SummaryGrows(before, front, c, candles, k, secs);
      }
      forall d | d in candles ensures exists k <- after :: k.openTime == BucketStart(d.openTime, secs) {
        if d in front {
          var k :| k in before && k.openTime == BucketStart(d.openTime, secs);
          BucketStays(before, c, secs, k);
        } else {
          assert d == c && after[|after| - 1] in after;
        }
      }
    }
  }

  lemma NewestBucket(before: seq<Kline>, c: Kline, secs: int)
    requires secs > 0 && StrictlyOrdered(before)
    requires before != [] ==> before[|before| - 1].openTime <= BucketStart(c.openTime, secs)
    ensures var after := Merged(before, c, secs);
      after != [] && StrictlyOrdered(after) && after[|after| - 1].openTime == BucketStart(c.openTime, secs)
  {
    hide BucketStart;
  }

  lemma BucketStays(before: seq<Kline>, c: Kline, secs: int, k: Kline)
    requires secs > 0 && k in before
    ensures exists l <- Merged(before, c, secs) :: l.openTime == k.openTime
  {
    hide BucketStart;
    var i :| 0 <= i < |before| && before[i] == k;
    assert Merged(before, c, secs)[i] in Merged(before, c, secs);
  }

  lemma MembersGrow(front: seq<Kline>, c: Kline, secs: int, bucket: int)
    requires secs > 0
    ensures Members(front + [c], secs, bucket)
      == if BucketStart(c.openTime, secs) == bucket then Members(front, secs, bucket) + [c]
        else Members(front, secs, bucket)
  {
    hide BucketStart;
    assert (front + [c])[..|front|] == front;
  }

  lemma SummaryGrows(before: seq<Kline>, front: seq<Kline>, c: Kline, candles: seq<Kline>, k: Kline, secs: int)
    requires secs > 0 && candles == front + [c] && StrictlyOrdered(before) && k in Merged(before, c, secs)
    requires forall b <- before :: IsSummaryOf(b, front, secs)
    requires forall d <- front :: exists b <- before :: b.openTime == BucketStart(d.openTime, secs)
    requires before != [] ==> before[|before| - 1].openTime <= BucketStart(c.openTime, secs)
    ensures IsSummaryOf(k, candles, secs)
  {
    hide BucketStart, Members, Summary;
    var bucket, n := BucketStart(c.openTime, secs), |before| - 1;
    MembersGrow(front, c, secs, k.openTime);
    if before != [] && before[n].openTime == bucket {
      assert IsSummaryOf(before[n], front, secs);
      if k == Extended(before[n], c) {
        SummaryOfOneMore(Members(front, secs, bucket), c, bucket, secs);
      } else {
        var i :| 0 <= i < n && before[i] == k;
        assert IsSummaryOf(before[i], front, secs) && before[i].openTime < before[n].openTime;
      }
    } else {
      AllBefore(before, bucket);
      if k in before {
        assert IsSummaryOf(k, front, secs);
      } else {
        NoMembers(front, before, bucket, secs);
        SummaryOfOne(c, bucket, secs);
        assert Members(candles, secs, bucket) == [c];
      }
    }
  }

  lemma AllBefore(before: seq<Kline>, bucket: int)
    requires StrictlyOrdered(before) && (before != [] ==> before[|before| - 1].openTime < bucket)
    ensures forall b <- before :: b.openTime < bucket
  {
    forall b | b in before ensures b.openTime < bucket {
      var i :| 0 <= i < |before| && before[i] == b;
      assert i < |before| - 1 ==> before[i].openTime < before[|before| - 1].openTime;
    }
  }

  lemma SummaryOfOne(c: Kline, bucket: int, secs: int)
    ensures Summary([c], bucket, secs) == Started(c, bucket, secs)
  {
    assert [c][..0] == [] && Volume([]) == 0.0;
  }

  lemma SummaryOfOneMore(members: seq<Kline>, c: Kline, bucket: int, secs: int)
    requires members != []
    ensures Summary(members + [c], bucket, secs) == Extended(Summary(members, bucket, secs), c)
  {
    assert (members + [c])[..|members|] == members;
  }

  lemma {:induction false} NoMembers(front: seq<Kline>, before: seq<Kline>, bucket: int, secs: int)
    requires secs > 0
    requires forall d <- front :: exists b <- before :: b.openTime == BucketStart(d.openTime, secs)
    requires forall b <- before :: b.openTime != bucket
    ensures Members(front, secs, bucket) == []
  {
    hide BucketStart;
    if front != [] {
      assert front[|front| - 1] in front;
      NoMembers(front[..|front| - 1], before, bucket, secs);
    }
  }

  /** No volume is lost or made up, in whatever order the candles come. */
  lemma {:induction false} VolumeIsConserved(candles: seq<Kline>, secs: int)
    requires secs > 0
    ensures Volume(Fold(candles, secs)) == Volume(candles)
  {
    hide BucketStart;
    if candles != [] {
      var n := |candles| - 1;
      VolumeIsConserved(candles[..n], secs);
      var before := Fold(candles[..n], secs);
      MergedVolume(before, candles[n], secs);
    }
  }

  lemma MergedVolume(before: seq<Kline>, c: Kline, secs: int)
    requires secs > 0
    ensures Volume(Merged(before, c, secs)) == Volume(before) + c.volume
  {
    hide BucketStart, Volume;
    var bucket, n := BucketStart(c.openTime, secs), |before| - 1;
    if before != [] && before[n].openTime == bucket {
      assert before == before[..n] + [before[n]];
      VolumeGrows(before[..n], before[n]);
      VolumeGrows(before[..n], Extended(before[n], c));
    } else {
      VolumeGrows(before, Started(c, bucket, secs));
    }
  }

  lemma VolumeGrows(candles: seq<Kline>, c: Kline)
    ensures Volume(candles + [c]) == Volume(candles) + c.volume
  {
    assert (candles + [c])[..|candles|] == candles;
  }

  // MARK: The base of an intrabar series

  type Seconds = s: int | s > 0 witness 1

  const INTRABAR_BASES: seq<Seconds> := [86_400, 3_600, 1_800, 900, 300, 60]

  /** The coarsest base that divides the interval. */
  function IntrabarBase(interval: int, bases: seq<Seconds>): Option<Seconds> {
    if bases == [] then None
    else if bases[0] <= interval && interval % bases[0] == 0 then Some(bases[0])
    else IntrabarBase(interval, bases[1..])
  }

  /**
   * Whatever the interval, the base chosen for it nests in it, so folding candles of the base gives
   * what folding any finer candles would; and no coarser base divides the interval.
   */
  lemma ChosenBaseLosesNothing(interval: int, finer: seq<Kline>)
    requires interval > 0
    ensures match IntrabarBase(interval, INTRABAR_BASES)
      case Some(base) =>
        && base in INTRABAR_BASES && Fold(Fold(finer, base), interval) == Fold(finer, interval)
        && forall b <- INTRABAR_BASES :: b <= interval && interval % b == 0 ==> b <= base
      case None => forall b <- INTRABAR_BASES :: b <= interval ==> interval % b != 0
  {
    BaseChoice(interval);
    var chosen := IntrabarBase(interval, INTRABAR_BASES);
    if chosen.Some? {
      assert Divides(chosen.value, interval);
      FoldsComposeExactlyWhenDividing(chosen.value, interval);
    }
  }

  lemma BaseChoice(interval: int)
    requires interval > 0
    ensures match IntrabarBase(interval, INTRABAR_BASES)
      case Some(base) =>
        && base in INTRABAR_BASES && UnitOf(base) == Even && DAY_SECS % base == 0 && interval % base == 0
        && forall b <- INTRABAR_BASES :: b <= interval && interval % b == 0 ==> b <= base
      case None => forall b <- INTRABAR_BASES :: b <= interval ==> interval % b != 0
  {
    var bases := INTRABAR_BASES;
    FirstDivisor(interval, bases);
  }

  predicate Falling(bases: seq<Seconds>) {
    forall i, j :: 0 <= i < j < |bases| ==> bases[i] > bases[j]
  }

  lemma {:induction false} FirstDivisor(interval: int, bases: seq<Seconds>)
    requires Falling(bases)
    ensures match IntrabarBase(interval, bases)
      case Some(base) =>
        && base in bases && base <= interval && interval % base == 0
        && forall b <- bases :: b <= interval && interval % b == 0 ==> b <= base
      case None => forall b <- bases :: b <= interval ==> interval % b != 0
  {
    if bases != [] {
      assert bases == [bases[0]] + bases[1..];
      FirstDivisor(interval, bases[1..]);
    }
  }

  // MARK: Close times

  /** Below a week, a candle closes a millisecond before the next bucket opens. */
  lemma EvenCandlesMeet(ms: int, secs: int)
    requires secs > 0 && UnitOf(secs) == Even
    ensures BucketStart(BucketStart(ms, secs) + secs * 1_000, secs) == BucketStart(ms, secs) + secs * 1_000
    ensures forall t :: BucketStart(ms, secs) <= t <= BucketStart(ms, secs) + secs * 1_000 - 1 ==>
      BucketStart(t, secs) == BucketStart(ms, secs)
  {
    var n := secs * 1_000;
    var q := ms / n;
    Times(q, q + 1, n);
    Floor(q * n, n, q);
    Floor((q + 1) * n, n, q + 1);
    Times(q + 1, q + 1, n);
    forall t | q * n <= t <= q * n + n - 1 ensures t / n == q {
      Floor(t, n, q);
    }
  }

  /** A month's candle ends within its own month exactly when the month is as long as the interval claims. */
  lemma MonthCandlesOverlapInShortMonths(year: int, month: int, secs: int)
    requires 1 <= month <= 12 && secs > 0 && UnitOf(secs) == Month
    ensures var start := DaysFromCivil(Civil(year, month, 1)) * DAY_MS;
      && BucketStart(start, secs) == start
      && (BucketStart(start + secs * 1_000 - 1, secs) == start <==> secs <= DaysInMonth(year, month) * DAY_SECS)
  {
    hide DaysFromCivil, CivilFromDays, DaysInMonth, BucketStart, StartDay;
    var day, days := DaysFromCivil(Civil(year, month, 1)), DaysInMonth(year, month);
    MonthIsABucket(year, month);
    CalendarBucket(day, secs);
    var end := day * DAY_MS + secs * 1_000 - 1;
    var endDay := end / DAY_MS;
    Floor(end, DAY_MS, endDay);
    InDay(end, secs);
    if secs <= days * DAY_SECS {
      assert day <= endDay < day + days;
    } else {
      assert endDay >= day + days;
      StartDayFloors(day + days, endDay, Month);
    }
  }

  lemma InDay(ms: int, secs: int)
    requires secs > 0 && UnitOf(secs) == Month
    ensures BucketStart(ms, secs) == StartDay(ms / DAY_MS, Month) * DAY_MS
  {
    hide StartDay;
  }

  /** The days of a month, and none after them, start on its first. */
  lemma MonthIsABucket(year: int, month: int)
    requires 1 <= month <= 12
    ensures var day, days := DaysFromCivil(Civil(year, month, 1)), DaysInMonth(year, month);
      && days >= 28 && (forall d :: day <= d < day + days ==> StartDay(d, Month) == day)
      && StartDay(day + days, Month) == day + days
  {
    hide *;
    var first, last := Civil(year, month, 1), Civil(year, month, DaysInMonth(year, month));
    var next := MonthEnds(year, month);
    StartOfDate(first, Month);
    StartOfDate(last, Month);
    StartOfDate(next, Month);
    Within(Month, DaysFromCivil(last), DaysFromCivil(first));
  }

  lemma MonthEnds(year: int, month: int) returns (next: Civil)
    requires 1 <= month <= 12
    ensures var first, last := Civil(year, month, 1), Civil(year, month, DaysInMonth(year, month));
      && ValidCivil(first) && ValidCivil(last) && ValidCivil(next) && DaysInMonth(year, month) >= 28
      && StartDate(first, Month) == first == StartDate(last, Month) && StartDate(next, Month) == next
      && DaysFromCivil(last) == DaysFromCivil(first) + DaysInMonth(year, month) - 1
      && DaysFromCivil(next) == DaysFromCivil(first) + DaysInMonth(year, month)
  {
    var last := Civil(year, month, DaysInMonth(year, month));
    MonthIsDays(year, month);
    NextOfLast(year, month);
    NextDayIsLater(last);
    next := NextDay(last);
    hide DaysFromCivil, DaysInMonth, NextDay;
    assert StartDate(next, Month) == next;
  }

  lemma StartOfDate(date: Civil, unit: Unit)
    requires ValidCivil(date) && (unit == Month || unit == Quarter || unit == Year)
    ensures StartDay(DaysFromCivil(date), unit) == DaysFromCivil(StartDate(date, unit))
  {
    hide DaysFromCivil, CivilFromDays;
    CivilAreDays(date);
  }

  lemma NextOfLast(year: int, month: int)
    requires 1 <= month <= 12
    ensures NextDay(Civil(year, month, DaysInMonth(year, month))).day == 1
  {
  }

  lemma MonthIsDays(year: int, month: int)
    requires 1 <= month <= 12
    ensures 28 <= DaysInMonth(year, month) <= 31
    ensures DaysFromCivil(Civil(year, month, DaysInMonth(year, month))) == DaysFromCivil(Civil(year, month, 1))
      + DaysInMonth(year, month) - 1
  {
  }

  /** The interval of a month is thirty days, so the candle of a February closes in March. */
  lemma FebruaryClosesInMarch()
    ensures var start := DaysFromCivil(Civil(2026, 2, 1)) * DAY_MS;
      BucketStart(start + 2_592_000 * 1_000 - 1, 2_592_000) != start
  {
    MonthCandlesOverlapInShortMonths(2026, 2, 2_592_000);
  }
}
