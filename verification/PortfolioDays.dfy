// Which days of a portfolio's history are missing, and which of them no rebuild will ever fill. See
// src/model/portfolio_history.rs and src/model/portfolio_ledger.rs.
module PortfolioDays {
  import opened Text
  import opened PortfolioLedger
  import opened PortfolioHost
  import opened PortfolioRuns

  // MARK: Missing days

  /** The portfolio has a transaction by then. */
  predicate Begun(txs: seq<Tx>, p: nat, d: int) {
    exists tx <- txs :: tx.portfolio == p && tx.timestamp <= d
  }

  predicate HasPoint(history: seq<Point>, p: nat, d: int) {
    exists point <- history :: point.portfolio == p && point.timestamp == d
  }

  /** The history should have the day, and does not. */
  predicate Missing(l: Ledger, p: nat, d: int, offset: int) {
    IsMidnight(d, offset) && Begun(l.transactions, p, d) && !HasPoint(l.history, p, d)
  }

  predicate IsLater(history: seq<Point>, p: nat, d: int) {
    forall point <- history :: point.portfolio == p ==> point.timestamp < d
  }

  predicate IsMarked(l: Ledger, p: nat, d: int, offset: int) {
    p in l.stale && StartOfDay(l.stale[p], offset) <= d
  }

  /** The day lies inside the stale mark or, without one, after all points: a later rebuild has it. */
  predicate Awaited(l: Ledger, p: nat, d: int, offset: int) {
    if p in l.stale then IsMarked(l, p, d, offset) else IsLater(l.history, p, d)
  }

  /** No missing day lies outside the stale mark or between the points. */
  ghost predicate NothingForgotten(l: Ledger, offset: int) {
    forall p: nat, d: int :: Missing(l, p, d, offset) ==> Awaited(l, p, d, offset)
  }

  /** Points are at midnights, and a stale portfolio has none from its mark on. */
  predicate Tidy(l: Ledger, offset: int) {
    forall point <- l.history ::
      IsMidnight(point.timestamp, offset) && (point.portfolio in l.stale ==> point.timestamp < l.stale[point.portfolio])
  }

  ghost predicate Kept(l: Ledger, offset: int) {
    Tidy(l, offset) && NothingForgotten(l, offset)
  }

  // MARK: What a rebuild fills

  lemma DayStarts(ms: int, offset: int)
    ensures IsMidnight(StartOfDay(ms, offset), offset) && StartOfDay(ms, offset) <= ms < StartOfDay(ms, offset) + DAY_MS
  {
  }

  /** Between two midnights lies a whole number of days. */
  lemma Midnights(a: int, b: int, offset: int)
    requires IsMidnight(a, offset) && IsMidnight(b, offset)
    ensures a < b ==> a + DAY_MS <= b
    ensures (b - a) % DAY_MS == 0
  {
  }

  lemma DayAt(d: int, ms: int, offset: int)
    requires IsMidnight(d, offset) && d <= ms < d + DAY_MS
    ensures StartOfDay(ms, offset) == d
  {
    DayStarts(ms, offset);
    hide StartOfDay;
    Midnights(d, StartOfDay(ms, offset), offset);
    Midnights(StartOfDay(ms, offset), d, offset);
  }

  lemma MidnightsBefore(d: int, ms: int, offset: int)
    requires IsMidnight(d, offset) && d <= ms
    ensures d <= StartOfDay(ms, offset)
  {
    DayStarts(ms, offset);
    hide StartOfDay;
    Midnights(StartOfDay(ms, offset), d, offset);
  }

  lemma {:induction false} LatestIsLast(history: seq<Point>, p: nat)
    ensures LatestOf(history, p).None? ==> forall point <- history :: point.portfolio != p
    ensures LatestOf(history, p).Some? ==>
      HasPoint(history, p, LatestOf(history, p).value)
      && forall point <- history :: point.portfolio == p ==> point.timestamp <= LatestOf(history, p).value
  {
    if history != [] {
      var n := |history| - 1;
      LatestIsLast(history[..n], p);
      assert history == history[..n] + [history[n]];
      assert history[n] in history;
      forall point | point in history[..n] ensures point in history {
      }
    }
  }

  lemma {:induction false} FirstDayIsFirst(txs: seq<Tx>, p: nat, offset: int, d: int)
    requires Begun(txs, p, d)
    ensures FirstDay(txs, p, offset).Some? && FirstDay(txs, p, offset).value <= d
  {
    var n := |txs| - 1;
    hide StartOfDay;
    assert txs == txs[..n] + [txs[n]];
    DayStarts(txs[n].timestamp, offset);
    if Begun(txs[..n], p, d) {
      FirstDayIsFirst(txs[..n], p, offset, d);
    } else {
      assert txs[n].portfolio == p && txs[n].timestamp <= d;
    }
  }

  lemma {:induction false} FirstDayIsOfATransaction(txs: seq<Tx>, p: nat, offset: int)
    ensures match FirstDay(txs, p, offset)
            case None => forall tx <- txs :: tx.portfolio != p
            case Some(day) => exists tx <- txs :: tx.portfolio == p && day == StartOfDay(tx.timestamp, offset)
  {
    hide StartOfDay;
    if txs != [] {
      var n := |txs| - 1;
      FirstDayIsOfATransaction(txs[..n], p, offset);
      assert txs == txs[..n] + [txs[n]] && txs[n] in txs;
      assert forall tx <- txs[..n] :: tx in txs;
    }
  }

  /**
   * Where a rebuild starts: at the day of the mark, but no later than today; without a mark the day
   * after the last point, if that has come, and else nowhere; without points the day of the
   * portfolio's first transaction, and without any nowhere.
   */
  lemma RebuildsStartWhereTheyShould(l: Ledger, p: nat, last: Option<Point>, first: Option<Tx>, nowMs: int, offset: int)
    requires match last
             case Some(point) => point in l.history && point.portfolio == p
               && forall q <- l.history :: q.portfolio == p ==> q.timestamp <= point.timestamp
             case None => forall q <- l.history :: q.portfolio != p
    requires match first
             case Some(tx) => tx in l.transactions && tx.portfolio == p
               && forall t <- l.transactions :: t.portfolio == p ==> tx.timestamp <= t.timestamp
             case None => forall t <- l.transactions :: t.portfolio != p
    requires last.Some? ==> IsMidnight(last.value.timestamp, offset)
    ensures var today := StartOfDay(nowMs, offset);
      RebuildStart(l, p, nowMs, offset) ==
        if p in l.stale then
          Some(if StartOfDay(l.stale[p], offset) <= today then StartOfDay(l.stale[p], offset) else today)
        else if last.Some? then
          if last.value.timestamp + DAY_MS <= today then Some(last.value.timestamp + DAY_MS) else None
        else if first.Some? then Some(StartOfDay(first.value.timestamp, offset))
        else None
  {
    LatestIsLast(l.history, p);
    FirstDayIsOfATransaction(l.transactions, p, offset);
    if last.Some? {
      NextMidnight(last.value.timestamp, offset);
    } else if first.Some? {
      var tx := first.value;
      DayStarts(tx.timestamp, offset);
      assert Begun(l.transactions, p, tx.timestamp);
      EarlierTransactionsStartEarlier(l.transactions, p, tx, offset);
    }
    hide StartOfDay;
  }

  lemma {:induction false} EarlierTransactionsStartEarlier(txs: seq<Tx>, p: nat, tx: Tx, offset: int)
    requires tx in txs && tx.portfolio == p && forall t <- txs :: t.portfolio == p ==> tx.timestamp <= t.timestamp
    ensures FirstDay(txs, p, offset) == Some(StartOfDay(tx.timestamp, offset))
  {
    FirstDayIsOfATransaction(txs, p, offset);
    FirstDayIsNoLater(txs, p, tx, offset);
    var first := FirstDay(txs, p, offset).value;
    var t :| t in txs && t.portfolio == p && first == StartOfDay(t.timestamp, offset);
    DaysInOrder(tx.timestamp, t.timestamp, offset);
  }

  lemma {:induction false} FirstDayIsNoLater(txs: seq<Tx>, p: nat, tx: Tx, offset: int)
    requires tx in txs && tx.portfolio == p
    ensures FirstDay(txs, p, offset).Some? && FirstDay(txs, p, offset).value <= StartOfDay(tx.timestamp, offset)
  {
    hide StartOfDay;
    var n := |txs| - 1;
    assert txs == txs[..n] + [txs[n]];
    if tx in txs[..n] {
      FirstDayIsNoLater(txs[..n], p, tx, offset);
    }
  }

  /** The day after the latest point is found from the calendar. */
  lemma NextMidnight(d: int, offset: int)
    requires IsMidnight(d, offset)
    ensures StartOfDay(StartOfDay(d, offset) + DAY_MS + DAY_MS / 2, offset) == d + DAY_MS
  {
    DayAt(d, d, offset);
    assert IsMidnight(d + DAY_MS, offset);
    DayAt(d + DAY_MS, d + DAY_MS + DAY_MS / 2, offset);
  }

  /**
   * Every awaited day is filled by whatever rebuild starts on it or later, and one that is not
   * awaited by none that starts after it.
   */
  lemma AwaitedIsRebuilt(l: Ledger, p: nat, d: int, nowMs: int, offset: int)
    requires Tidy(l, offset) && Missing(l, p, d, offset) && d <= nowMs
    ensures var start := RebuildStart(l, p, nowMs, offset);
      && (Awaited(l, p, d, offset) ==> start.Some? && start.value <= d)
      && (!Awaited(l, p, d, offset) && d + DAY_MS <= nowMs ==> start.None? || start.value > d)
  {
    MidnightsBefore(d, nowMs, offset);
    if d + DAY_MS <= nowMs {
      assert IsMidnight(d + DAY_MS, offset);
      MidnightsBefore(d + DAY_MS, nowMs, offset);
    }
    hide StartOfDay, Begun, HasPoint;
    if p !in l.stale {
      LatestIsLast(l.history, p);
      match LatestOf(l.history, p) {
        case Some(latest) =>
          PointsAreMidnights(l, p, latest, offset);
          NextMidnight(latest, offset);
          LatestDecides(l.history, p, latest, d, offset);
        case None => FirstDayIsFirst(l.transactions, p, offset, d);
      }
    }
  }

  lemma PointsAreMidnights(l: Ledger, p: nat, d: int, offset: int)
    requires Tidy(l, offset) && HasPoint(l.history, p, d)
    ensures IsMidnight(d, offset)
  {
  }

  lemma LatestDecides(history: seq<Point>, p: nat, latest: int, d: int, offset: int)
    requires HasPoint(history, p, latest) && IsMidnight(latest, offset) && IsMidnight(d, offset)
    requires forall point <- history :: point.portfolio == p ==> point.timestamp <= latest
    ensures IsLater(history, p, d) <==> latest + DAY_MS <= d
  {
    Midnights(latest, d, offset);
  }

  // MARK: Edits

  /** A new mark is no later than the first day after all points, so that no day is left between them. */
  ghost predicate NewMarksReach(before: Ledger, after: Ledger, offset: int) {
    forall p: nat, d: int ::
      p in after.stale && p !in before.stale && IsMidnight(d, offset) && Begun(after.transactions, p, d)
        && IsLater(before.history, p, d)
      ==> IsMarked(after, p, d, offset)
  }

  /** A day outside the marks that is missing afterwards was missing, and outside the marks, before. */
  ghost predicate LosesOnlyMarked(a: Ledger, b: Ledger, offset: int) {
    && Tidy(b, offset)
    && (forall point <- b.history :: point in a.history)
    && forall p: nat, d: int :: Missing(b, p, d, offset) && !IsMarked(b, p, d, offset) ==>
        Missing(a, p, d, offset) && !IsMarked(a, p, d, offset) && (p in a.stale ==> p in b.stale)
  }

  lemma EditedIsKept(a: Ledger, b: Ledger, offset: int)
    requires Kept(a, offset) && LosesOnlyMarked(a, b, offset)
    ensures Kept(b, offset) <==> NewMarksReach(a, b, offset)
  {
    hide IsMidnight, Begun, StartOfDay;
    if Kept(b, offset) {
      forall p: nat, d: int |
        p in b.stale && p !in a.stale && IsMidnight(d, offset) && Begun(b.transactions, p, d)
          && IsLater(a.history, p, d)
        ensures IsMarked(b, p, d, offset)
      {
        assert Missing(b, p, d, offset);
      }
    }
    if NewMarksReach(a, b, offset) {
      forall p: nat, d: int | Missing(b, p, d, offset) ensures Awaited(b, p, d, offset) {
        if !IsMarked(b, p, d, offset) {
          assert Missing(a, p, d, offset) && Awaited(a, p, d, offset);
          assert p !in a.stale && IsLater(a.history, p, d);
          assert IsMidnight(d, offset) && Begun(b.transactions, p, d);
          assert p !in b.stale && IsLater(b.history, p, d);
        }
      }
    }
  }

  lemma LosesJoin(a: Ledger, b: Ledger, c: Ledger, offset: int)
    requires LosesOnlyMarked(a, b, offset) && LosesOnlyMarked(b, c, offset)
    ensures LosesOnlyMarked(a, c, offset)
  {
    hide Missing, IsMarked, Tidy;
  }

  /** Marks only move back, and exactly the points they reach are gone. */
  predicate Cut(a: Ledger, b: Ledger) {
    && (forall p <- a.stale :: p in b.stale && b.stale[p] <= a.stale[p])
    && (forall point <- b.history ::
      point in a.history && (point.portfolio in b.stale ==> point.timestamp < b.stale[point.portfolio]))
    && (forall point <- a.history :: (point.portfolio in b.stale ==> point.timestamp < b.stale[point.portfolio]) ==>
      point in b.history)
  }

  lemma InvalidatedCuts(l: Ledger, p: nat, date: int, offset: int)
    requires Tidy(l, offset)
    ensures var after := Invalidated(l, p, date);
      && Cut(l, after) && Tidy(after, offset) && after.transactions == l.transactions
      && p in after.stale && after.stale[p] <= date
  {
    hide IsMidnight;
  }

  lemma CutsJoin(a: Ledger, b: Ledger, c: Ledger)
    requires Cut(a, b) && Cut(b, c)
    ensures Cut(a, c)
  {
  }

  lemma {:induction false} InvalidatedAllCuts(l: Ledger, txs: seq<Tx>, offset: int)
    requires Tidy(l, offset)
    ensures var after := InvalidatedAll(l, txs);
      && Cut(l, after) && Tidy(after, offset) && after.transactions == l.transactions
      && forall tx <- txs :: tx.portfolio in after.stale && after.stale[tx.portfolio] <= tx.timestamp
  {
    hide Tidy, Cut, Invalidated;
    if txs == [] {
      CutNothing(l, offset);
    } else {
      var n := |txs| - 1;
      var front := InvalidatedAll(l, txs[..n]);
      InvalidatedAllCuts(l, txs[..n], offset);
      InvalidatedCuts(front, txs[n].portfolio, txs[n].timestamp, offset);
      CutsJoin(l, front, InvalidatedAll(l, txs));
      MarksMoveBack(front, InvalidatedAll(l, txs), txs[..n]);
      assert txs == txs[..n] + [txs[n]];
    }
  }

  lemma CutNothing(l: Ledger, offset: int)
    requires Tidy(l, offset)
    ensures Cut(l, l)
  {
    hide IsMidnight;
  }

  predicate AllMarked(l: Ledger, txs: seq<Tx>) {
    forall tx <- txs :: tx.portfolio in l.stale && l.stale[tx.portfolio] <= tx.timestamp
  }

  lemma MarksMoveBack(a: Ledger, b: Ledger, txs: seq<Tx>)
    requires Cut(a, b) && AllMarked(a, txs)
    ensures AllMarked(b, txs)
  {
  }

  /** Changing only transactions from the marks on, and dropping the points from there, loses only marked days. */
  lemma CutLosesOnlyMarked(a: Ledger, b: Ledger, offset: int)
    requires Tidy(a, offset) && Tidy(b, offset) && Cut(a, b)
    requires forall tx <- b.transactions :: tx in a.transactions || AllMarked(b, [tx])
    ensures LosesOnlyMarked(a, b, offset)
  {
    hide IsMidnight, StartOfDay;
    forall p: nat, d: int | Missing(b, p, d, offset) && !IsMarked(b, p, d, offset)
      ensures Missing(a, p, d, offset) && !IsMarked(a, p, d, offset) && (p in a.stale ==> p in b.stale)
    {
      var tx :| tx in b.transactions && tx.portfolio == p && tx.timestamp <= d;
      UnmarkedIsBefore(b, tx, d, offset);
      if p in a.stale {
        DaysInOrder(b.stale[p], a.stale[p], offset);
      }
    }
  }

  lemma UnmarkedIsBefore(l: Ledger, tx: Tx, d: int, offset: int)
    requires tx.timestamp <= d && !IsMarked(l, tx.portfolio, d, offset)
    ensures !AllMarked(l, [tx]) && (tx.portfolio in l.stale ==> d < l.stale[tx.portfolio])
  {
    assert tx in [tx];
    if tx.portfolio in l.stale {
      DayStarts(l.stale[tx.portfolio], offset);
    }
  }

  lemma DaysInOrder(a: int, b: int, offset: int)
    requires a <= b
    ensures StartOfDay(a, offset) <= StartOfDay(b, offset)
  {
    DayStarts(a, offset);
    hide StartOfDay;
    MidnightsBefore(StartOfDay(a, offset), b, offset);
  }

  lemma UpdateLosesOnlyMarked(l: Ledger, tx: Tx, offset: int)
    requires Tidy(l, offset) && PositionOf(l.transactions, tx.id).Some? && HasPortfolio(l, tx.portfolio)
    ensures LosesOnlyMarked(l, Edited(l, Update(tx, true)).value, offset)
      && LosesOnlyMarked(l, Edited(l, Receive(tx)).value, offset)
  {
    hide Tidy, LosesOnlyMarked, Invalidated;
    var i := PositionOf(l.transactions, tx.id).value;
    var was, changed := l.transactions[i], l.(transactions := l.transactions[i := tx]);
    TwiceCut(l, changed, tx, was.portfolio, Min(was.timestamp, tx.timestamp), tx.portfolio, tx.timestamp, offset);
    TwiceCut(l, changed, tx, tx.portfolio, Min(was.timestamp, tx.timestamp), was.portfolio, was.timestamp, offset);
  }

  /** `tx` is new, and marked by one of two invalidations, or by the first alone if they are of one portfolio. */
  lemma TwiceCut(l: Ledger, changed: Ledger, tx: Tx, p: nat, first: int, q: nat, second: int, offset: int)
    requires Tidy(l, offset) && changed == l.(transactions := changed.transactions)
    requires forall t <- changed.transactions :: t in l.transactions || t == tx
    requires (tx.portfolio == p && first <= tx.timestamp) || (tx.portfolio == q && second <= tx.timestamp)
    ensures p == q ==> first > tx.timestamp || LosesOnlyMarked(l, Invalidated(changed, p, first), offset)
    ensures p != q ==> LosesOnlyMarked(l, Invalidated(Invalidated(changed, p, first), q, second), offset)
  {
    assert Tidy(changed, offset);
    var once := Invalidated(changed, p, first);
    var twice := Invalidated(once, q, second);
    InvalidatedCuts(changed, p, first, offset);
    InvalidatedCuts(once, q, second, offset);
    CutsJoin(changed, once, twice);
    assert Cut(l, once) && Cut(l, twice) by {
      hide Invalidated;
    }
    hide Invalidated, Tidy, LosesOnlyMarked;
    if p == q && first <= tx.timestamp {
      assert AllMarked(once, [tx]);
      CutLosesOnlyMarked(l, once, offset);
    } else if p != q {
      assert AllMarked(twice, [tx]);
      CutLosesOnlyMarked(l, twice, offset);
    }
  }

  lemma DeletionLosesOnlyMarked(l: Ledger, p: nat, selected: Option<nat>, offset: int)
    requires Tidy(l, offset) && HasPortfolio(l, p)
    ensures LosesOnlyMarked(l, Edited(l, DeletePortfolio(p, selected)).value, offset)
  {
    var after := Edited(l, DeletePortfolio(p, selected)).value;
    OthersStay(l.transactions, p);
    hide IsMidnight, StartOfDay;
    forall q: nat, d: int | Missing(after, q, d, offset) && !IsMarked(after, q, d, offset)
      ensures Missing(l, q, d, offset) && !IsMarked(l, q, d, offset) && (q in l.stale ==> q in after.stale)
    {
      var tx :| tx in after.transactions && tx.portfolio == q && tx.timestamp <= d;
      assert tx in l.transactions && q != p;
    }
  }

  lemma {:induction false} OthersStay(txs: seq<Tx>, p: nat)
    ensures forall tx <- WithoutPortfolio(txs, p) :: tx in txs && tx.portfolio != p
  {
    if txs != [] {
      OthersStay(txs[1..], p);
      assert txs == [txs[0]] + txs[1..];
    }
  }

  lemma {:induction false} WithoutIdStays(txs: seq<Tx>, id: nat)
    ensures forall tx <- WithoutId(txs, id) :: tx in txs
  {
    if txs != [] {
      WithoutIdStays(txs[1..], id);
      assert txs == [txs[0]] + txs[1..];
    }
  }

  lemma OnceCut(l: Ledger, changed: Ledger, p: nat, date: int, offset: int)
    requires Tidy(l, offset) && changed
      == l.(portfolios := changed.portfolios, transactions := changed.transactions, selected := changed.selected)
    requires forall tx <- changed.transactions :: tx in l.transactions || (tx.portfolio == p && date <= tx.timestamp)
    ensures LosesOnlyMarked(l, Invalidated(changed, p, date), offset)
  {
    assert Tidy(changed, offset);
    var after := Invalidated(changed, p, date);
    InvalidatedCuts(changed, p, date, offset);
    assert Cut(l, after) by {
      hide Invalidated;
    }
    hide Invalidated, Tidy, LosesOnlyMarked;
    CutLosesOnlyMarked(l, after, offset);
  }

  lemma ManyCut(l: Ledger, changed: Ledger, txs: seq<Tx>, offset: int)
    requires Tidy(l, offset) && changed == l.(transactions := changed.transactions)
    requires forall tx <- changed.transactions ::
      tx in l.transactions || exists t <- txs :: t.portfolio == tx.portfolio && t.timestamp <= tx.timestamp
    ensures LosesOnlyMarked(l, InvalidatedAll(changed, txs), offset)
  {
    assert Tidy(changed, offset);
    var after := InvalidatedAll(changed, txs);
    InvalidatedAllCuts(changed, txs, offset);
    hide InvalidatedAll, Tidy, LosesOnlyMarked;
    assert Cut(l, after);
    CutLosesOnlyMarked(l, after, offset);
  }

  lemma RemapLosesOnlyMarked(l: Ledger, key: string, to: string, ids: set<nat>, now: int, offset: int)
    requires Tidy(l, offset)
    ensures var remapped := l.(transactions := Remapped(l.transactions, key, to, ids, now));
      LosesOnlyMarked(l, InvalidatedAll(remapped, Affected(l.transactions, key, ids)), offset)
  {
    var remapped, affected := Remapped(l.transactions, key, to, ids, now), Affected(l.transactions, key, ids);
    AffectedAll(l.transactions, key, ids);
    forall tx | tx in remapped ensures
      tx in l.transactions || exists t <- affected :: t.portfolio == tx.portfolio && t.timestamp <= tx.timestamp
    {
      var i :| 0 <= i < |remapped| && remapped[i] == tx;
      assert l.transactions[i] in l.transactions;
    }
    ManyCut(l, l.(transactions := remapped), affected, offset);
  }

  lemma NothingLost(l: Ledger, after: Ledger, offset: int)
    requires Tidy(l, offset) && after == l.(portfolios := after.portfolios, selected := after.selected)
    ensures LosesOnlyMarked(l, after, offset)
  {
    hide IsMidnight, StartOfDay;
  }

  lemma EditLosesOnlyMarked(l: Ledger, edit: Edit, offset: int)
    requires Tidy(l, offset) && WellFormed(edit) && Edited(l, edit).Some?
    ensures LosesOnlyMarked(l, Edited(l, edit).value, offset)
  {
    var after := Edited(l, edit).value;
    hide Tidy, LosesOnlyMarked;
    match edit {
      case Describe(_, _) => NothingLost(l, after, offset);
      case Duplicate(_, copy, copies, now) =>
        EarliestIsEarliest(copies, now);
        OnceCut(l, l.(portfolios := l.portfolios + [copy], transactions := l.transactions + copies,
          selected := Some(copy.id)),
                copy.id, Earliest(copies, now), offset);
      case DeletePortfolio(p, selected) => DeletionLosesOnlyMarked(l, p, selected, offset);
      case Add(tx, _) => OnceCut(l, l.(transactions := l.transactions + [tx]), tx.portfolio, tx.timestamp, offset);
      case Update(tx, _) => UpdateLosesOnlyMarked(l, tx, offset);
      case Delete(id, _) =>
        var was := l.transactions[PositionOf(l.transactions, id).value];
        WithoutIdStays(l.transactions, id);
        OnceCut(l, l.(transactions := WithoutId(l.transactions, id)), was.portfolio, was.timestamp, offset);
      case Remap(key, to, ids, now, _) =>
        if key == to || Affected(l.transactions, key, ids) == [] {
          NothingLost(l, after, offset);
        } else {
          RemapLosesOnlyMarked(l, key, to, ids, now, offset);
        }
      case Import(txs, _) => ManyCut(l, l.(transactions := l.transactions + txs), txs, offset);
      case Receive(tx) =>
        if PositionOf(l.transactions, tx.id).Some? {
          UpdateLosesOnlyMarked(l, tx, offset);
        } else {
          OnceCut(l, l.(transactions := l.transactions + [tx]), tx.portfolio, tx.timestamp, offset);
        }
    }
  }

  lemma {:induction false} SyncLosesOnlyMarked(l: Ledger, edits: seq<Edit>, versions: set<Tx>, offset: int)
    requires Tidy(l, offset) && AllAllowed(l, edits, versions)
    ensures LosesOnlyMarked(l, EditedAll(l, edits, versions), offset)
    decreases edits
  {
    hide Edited;
    if edits == [] {
      NothingLost(l, l, offset);
    } else {
      var next := Edited(l, edits[0]).value;
      EditLosesOnlyMarked(l, edits[0], offset);
      SyncLosesOnlyMarked(next, edits[1..], versions, offset);
      LosesJoin(l, next, EditedAll(next, edits[1..], versions), offset);
    }
  }

  // MARK: Rebuilds

  /**
   * Every day before the stretch that should be in the history is in it, and stays. A stretch may be
   * empty when nothing could be priced yet, and then leaves the later days to the next rebuild.
   */
  ghost predicate Reaches(l: Ledger, p: nat, from: int, first: int, nowMs: int, offset: int) {
    first <= nowMs ==>
      forall d: int :: d < first && IsMidnight(d, offset) && Begun(l.transactions, p, d) ==>
        d < from && HasPoint(l.history, p, d)
  }

  /** The ledger once the days from `first` on are in it, and whatever was there from `from` on is not. */
  function Filled(l: Ledger, p: nat, job: Job, first: int): Ledger {
    WithStretch(l, p, job.from, PointsOf(p, job.txs, Days(first, job.nowMs)))
  }

  lemma FilledPoints(l: Ledger, p: nat, job: Job, first: int, q: nat, d: int)
    ensures HasPoint(Filled(l, p, job, first).history, q, d) <==>
      (q == p && d in Days(first, job.nowMs)) || (HasPoint(l.history, q, d) && (q == p ==> d < job.from))
  {
    var days := Days(first, job.nowMs);
    var kept, points := PointsBefore(l.history, p, job.from), PointsOf(p, job.txs, days);
    hide Relevant;
    if q == p && d in days {
      var i :| 0 <= i < |days| && days[i] == d;
      assert (kept + points)[|kept| + i] == points[i];
    }
    if HasPoint(l.history, q, d) && (q == p ==> d < job.from) {
      var point :| point in l.history && point.portfolio == q && point.timestamp == d;
      assert point in kept && point in kept + points;
    }
    if HasPoint(kept + points, q, d) {
      var i :| 0 <= i < |kept + points| && (kept + points)[i].portfolio == q && (kept + points)[i].timestamp == d;
      if i < |kept| {
        assert kept[i] in kept;
      } else {
        assert days[i - |kept|] in days;
      }
    }
  }

  lemma FilledIsTidy(l: Ledger, p: nat, job: Job, first: int, offset: int)
    requires Tidy(l, offset) && IsMidnight(first, offset)
    ensures Tidy(Filled(l, p, job, first), offset)
  {
    var after, days := Filled(l, p, job, first), Days(first, job.nowMs);
    hide Relevant, IsMidnight;
    forall point | point in after.history
      ensures IsMidnight(point.timestamp, offset)
        && (point.portfolio in after.stale ==> point.timestamp < after.stale[point.portfolio])
    {
      if point in PointsBefore(l.history, p, job.from) {
        assert point in l.history;
      } else {
        var i :| 0 <= i < |days| && PointsOf(p, job.txs, days)[i] == point;
        assert days[i] in days;
        SameTime(first, days[i], offset);
      }
    }
  }

  lemma SameTime(a: int, b: int, offset: int)
    requires IsMidnight(a, offset) && (b - a) % DAY_MS == 0
    ensures IsMidnight(b, offset)
  {
  }

  lemma LaterMeans(history: seq<Point>, p: nat, d: int)
    ensures IsLater(history, p, d) <==> forall x: int :: HasPoint(history, p, x) ==> x < d
  {
    forall point | point in history && point.portfolio == p ensures HasPoint(history, p, point.timestamp) {
    }
  }

  lemma OthersAreKept(l: Ledger, p: nat, job: Job, first: int, q: nat, d: int, offset: int)
    requires q != p && NothingForgotten(l, offset) && Missing(Filled(l, p, job, first), q, d, offset)
    ensures Awaited(Filled(l, p, job, first), q, d, offset)
  {
    hide Filled, IsMidnight, Begun, HasPoint, StartOfDay;
    var after := Filled(l, p, job, first);
    assert after.transactions == l.transactions && (q in after.stale <==> q in l.stale)
      && (q in l.stale ==> after.stale[q] == l.stale[q]) by {
      FilledRest(l, p, job, first);
    }
    FilledPoints(l, p, job, first, q, d);
    assert Missing(l, q, d, offset);
    LaterMeans(l.history, q, d);
    LaterMeans(after.history, q, d);
    forall x: int ensures HasPoint(after.history, q, x) <==> HasPoint(l.history, q, x) {
      FilledPoints(l, p, job, first, q, x);
    }
  }

  lemma FilledRest(l: Ledger, p: nat, job: Job, first: int)
    ensures Filled(l, p, job, first).transactions == l.transactions && Filled(l, p, job, first).stale == l.stale - {p}
  {
  }

  /** A day of `p` that is missing from the filled history has nothing after it. */
  lemma OwnDaysAreKept(l: Ledger, p: nat, job: Job, first: int, d: int, offset: int)
    requires Kept(l, offset) && IsMidnight(first, offset) && first >= job.from
      && Reaches(l, p, job.from, first, job.nowMs, offset)
    requires Missing(Filled(l, p, job, first), p, d, offset)
    ensures Awaited(Filled(l, p, job, first), p, d, offset)
  {
    hide Filled, Begun, StartOfDay, HasPoint;
    var after := Filled(l, p, job, first);
    FilledRest(l, p, job, first);
    FilledPoints(l, p, job, first, p, d);
    LaterMeans(after.history, p, d);
    forall x: int | HasPoint(after.history, p, x) ensures x < d {
      FilledPoints(l, p, job, first, p, x);
      if first <= job.nowMs {
        assert d >= first;
        Midnights(first, d, offset);
      } else {
        NothingAfterGap(l, p, d, x, job.from, offset);
      }
    }
  }

  /** In a history in which nothing is forgotten no point is after a missing day. */
  lemma NothingAfterGap(l: Ledger, p: nat, d: int, x: int, from: int, offset: int)
    requires Kept(l, offset) && IsMidnight(d, offset) && Begun(l.transactions, p, d)
      && (HasPoint(l.history, p, d) ==> d >= from)
    requires HasPoint(l.history, p, x) && x < from
    ensures x < d
  {
    if x >= d {
      assert Missing(l, p, d, offset) && Awaited(l, p, d, offset);
      PointsAreMidnights(l, p, x, offset);
      assert p in l.stale;
      DayStarts(l.stale[p], offset);
      Midnights(StartOfDay(l.stale[p], offset), x, offset);
      assert false;
    }
  }

  /**
   * Storing a stretch leaves no missing day outside the marks exactly if it reaches back to every
   * day that is missing before it.
   */
  lemma FilledIsKept(l: Ledger, p: nat, job: Job, first: int, offset: int)
    requires Kept(l, offset) && IsMidnight(first, offset) && first >= job.from
    ensures Kept(Filled(l, p, job, first), offset) <==> Reaches(l, p, job.from, first, job.nowMs, offset)
  {
    var after := Filled(l, p, job, first);
    FilledIsTidy(l, p, job, first, offset);
    hide Filled, Tidy, Missing, Awaited;
    if Reaches(l, p, job.from, first, job.nowMs, offset) {
      forall q: nat, d: int | Missing(after, q, d, offset) ensures Awaited(after, q, d, offset) {
        if q == p {
          OwnDaysAreKept(l, p, job, first, d, offset);
        } else {
          OthersAreKept(l, p, job, first, q, d, offset);
        }
      }
    } else {
      var d: int :| d < first && IsMidnight(d, offset) && Begun(l.transactions, p, d)
        && !(d < job.from && HasPoint(l.history, p, d));
      UnreachedIsForgotten(l, p, job, first, d, offset);
    }
  }

  lemma UnreachedIsForgotten(l: Ledger, p: nat, job: Job, first: int, d: int, offset: int)
    requires first <= job.nowMs && d < first && IsMidnight(d, offset) && Begun(l.transactions, p, d)
    requires !(d < job.from && HasPoint(l.history, p, d))
    ensures Missing(Filled(l, p, job, first), p, d, offset) && !Awaited(Filled(l, p, job, first), p, d, offset)
  {
    hide Filled, Begun, HasPoint;
    FilledRest(l, p, job, first);
    FilledPoints(l, p, job, first, p, d);
    FilledPoints(l, p, job, first, p, first);
    assert first in Days(first, job.nowMs);
    LaterMeans(Filled(l, p, job, first).history, p, d);
  }

  /** A rebuild that starts where it should, and that no edit overtakes, forgets nothing. */
  lemma UndisturbedRebuildReaches(l: Ledger, p: nat, nowMs: int, offset: int)
    requires Kept(l, offset) && RebuildStart(l, p, nowMs, offset).Some?
    ensures var from := RebuildStart(l, p, nowMs, offset).value; Reaches(l, p, from, from, nowMs, offset)
  {
    var from := RebuildStart(l, p, nowMs, offset).value;
    hide RebuildStart;
    forall d: int | d < from <= nowMs && IsMidnight(d, offset) && Begun(l.transactions, p, d)
      ensures HasPoint(l.history, p, d) {
      if !HasPoint(l.history, p, d) {
        assert Missing(l, p, d, offset);
        AwaitedIsRebuilt(l, p, d, nowMs, offset);
        assert false;
      }
    }
  }

  // MARK: Every step

  /** Memory and store are both without forgotten days. */
  ghost predicate AllKept(sys: System) {
    Kept(sys.host.memory, sys.offset) && Kept(sys.host.stored, sys.offset)
  }

  /** A rebuild is stored while memory mirrors the store. */
  predicate Together(sys: System, action: Action)
    requires Enabled(sys, action)
  {
    Stores(sys, action) ==> Mirrors(sys.host)
  }

  ghost predicate StepReaches(sys: System, action: Action)
    requires Enabled(sys, action)
  {
    match action
    case Commit(edit, writeOk) =>
      Commits(sys.host, edit, writeOk) ==>
        NewMarksReach(sys.host.memory, Edited(sys.host.memory, edit).value, sys.offset)
    case Finish(p, first, _) =>
      Stores(sys, action) ==> Reaches(sys.host.memory, p, sys.jobs[p].from, first.value, sys.jobs[p].nowMs, sys.offset)
    case Synced(edits, _) => NewMarksReach(sys.host.stored, EditedAll(sys.host.stored, edits, sys.versions), sys.offset)
    case _ => true
  }

  lemma SelectionIsNoDay(l: Ledger, selected: Option<nat>, offset: int)
    ensures Kept(l, offset) <==> Kept(l.(selected := selected), offset)
  {
    var other := l.(selected := selected);
    hide IsMidnight, Begun, HasPoint, IsMarked, IsLater;
    if Kept(l, offset) {
      forall p: nat, d: int | Missing(other, p, d, offset) ensures Awaited(other, p, d, offset) {
        assert Missing(l, p, d, offset) && Awaited(l, p, d, offset);
        MarkedAlike(l, other, p, d, offset);
      }
    }
    if Kept(other, offset) {
      forall p: nat, d: int | Missing(l, p, d, offset) ensures Awaited(l, p, d, offset) {
        assert Missing(other, p, d, offset) && Awaited(other, p, d, offset);
        MarkedAlike(l, other, p, d, offset);
      }
    }
  }

  lemma MarkedAlike(a: Ledger, b: Ledger, p: nat, d: int, offset: int)
    requires a.stale == b.stale
    ensures IsMarked(a, p, d, offset) <==> IsMarked(b, p, d, offset)
  {
  }

  lemma FinishReachesExactly(sys: System, action: Action)
    requires AllKept(sys) && Enabled(sys, action) && Stores(sys, action) && Mirrors(sys.host)
    ensures AllKept(Next(sys, action)) <==> StepReaches(sys, action)
  {
    hide Kept, Reaches, IsMidnight, Relevant;
    var p, job, first := action.p, sys.jobs[action.p], action.first.value;
    var after := Next(sys, action).host;
    FilledIsKept(sys.host.memory, p, job, first, sys.offset);
    assert after.memory == Filled(sys.host.memory, p, job, first);
    assert after.stored == after.memory.(selected := sys.host.stored.selected);
    SelectionIsNoDay(after.memory, sys.host.stored.selected, sys.offset);
  }

  lemma CommitReachesExactly(sys: System, action: Action)
    requires AllKept(sys) && Enabled(sys, action) && action.Commit?
    ensures AllKept(Next(sys, action)) <==> StepReaches(sys, action)
  {
    hide Edited, Tidy, NothingForgotten, NewMarksReach;
    if Commits(sys.host, action.edit, action.writeOk) {
      EditLosesOnlyMarked(sys.host.memory, action.edit, sys.offset);
      EditedIsKept(sys.host.memory, Edited(sys.host.memory, action.edit).value, sys.offset);
    }
  }

  lemma SyncReachesExactly(sys: System, action: Action)
    requires AllKept(sys) && Enabled(sys, action) && action.Synced?
    ensures AllKept(Next(sys, action)) <==> StepReaches(sys, action)
  {
    hide Edited, EditedAll, AllAllowed, Tidy, NothingForgotten, NewMarksReach;
    var merged := EditedAll(sys.host.stored, action.edits, sys.versions);
    SyncLosesOnlyMarked(sys.host.stored, action.edits, sys.versions, sys.offset);
    EditedIsKept(sys.host.stored, merged, sys.offset);
    SelectionIsNoDay(merged, Repaired(merged).selected, sys.offset);
  }

  /**
   * Starting rebuilds and choosing portfolios forgets nothing. An edit, here or from another Mac,
   * does not exactly if its mark is no later than the first day not built yet; a rebuild does not
   * exactly if its stretch reaches back to every missing day before it, which an edit since its
   * start may have added to.
   */
  lemma KeptExactlyWhenReaching(sys: System, action: Action)
    requires AllKept(sys) && Enabled(sys, action) && Together(sys, action)
    ensures AllKept(Next(sys, action)) <==> StepReaches(sys, action)
  {
    match action {
      case Commit(_, _) => CommitReachesExactly(sys, action);
      case Choose(id, _) =>
        SelectionIsNoDay(sys.host.memory, id, sys.offset);
        SelectionIsNoDay(sys.host.stored, id, sys.offset);
        hide Kept;
      case Start(_, _, _) => hide Kept, RebuildStart;
      case Finish(_, _, _) =>
        if Stores(sys, action) {
          FinishReachesExactly(sys, action);
        } else {
          hide Kept;
        }
      case Synced(_, _) => SyncReachesExactly(sys, action);
    }
  }

  ghost predicate AlwaysKept(sys: System, actions: seq<Action>)
    requires IsRun(sys, actions)
    decreases actions
  {
    AllKept(sys) && (actions == [] || AlwaysKept(Next(sys, actions[0]), actions[1..]))
  }

  ghost predicate AllTogether(sys: System, actions: seq<Action>)
    requires IsRun(sys, actions)
    decreases actions
  {
    actions == [] || (Together(sys, actions[0]) && AllTogether(Next(sys, actions[0]), actions[1..]))
  }

  ghost predicate AllReach(sys: System, actions: seq<Action>)
    requires IsRun(sys, actions)
    decreases actions
  {
    actions == [] || (StepReaches(sys, actions[0]) && AllReach(Next(sys, actions[0]), actions[1..]))
  }

  /** Over a whole run no day is ever forgotten if and only if every mark and every stored stretch reaches. */
  lemma {:induction false} DaysStayKept(sys: System, actions: seq<Action>)
    requires AllKept(sys) && IsRun(sys, actions) && AllTogether(sys, actions)
    ensures AlwaysKept(sys, actions) <==> AllReach(sys, actions)
    decreases actions
  {
    hide AllKept, Next, Enabled, StepReaches, Together;
    if actions != [] {
      KeptExactlyWhenReaching(sys, actions[0]);
      if AllKept(Next(sys, actions[0])) {
        DaysStayKept(Next(sys, actions[0]), actions[1..]);
      }
    }
  }

  /** While every sync can be read, each rebuild is stored where memory and store agree. */
  lemma {:induction false} ReadableSyncsKeepTogether(sys: System, actions: seq<Action>)
    requires Mirrors(sys.host) && IsRun(sys, actions)
    requires forall action <- actions :: action.Synced? ==> action.readOk
    ensures AllTogether(sys, actions)
    decreases actions
  {
    hide Next, Enabled, Mirrors, Stores;
    if actions != [] {
      assert actions[0] in actions;
      MirroringSettles(sys, actions[0]);
      ReadableSyncsKeepTogether(Next(sys, actions[0]), actions[1..]);
    }
  }

  // MARK: Two runs that forget a day

  const FIRST := Tx(1, 1, "BTC", 8 * DAY_MS, 0, 0, "")
  const PASSING := Tx(2, 1, "BTC", 8 * DAY_MS + 1, 0, 0, "")
  const TODAY := Tx(3, 1, "ETH", 10 * DAY_MS + 1, 0, 0, "")
  const VERSIONS := {FIRST, PASSING, TODAY}

  function Valued(day: int): Point {
    Point(1, day * DAY_MS, multiset{FIRST})
  }

  function Both(l: Ledger): State {
    State(l, l, false)
  }

  function At(txs: seq<Tx>, history: seq<Point>, stale: map<nat, int>, jobs: map<nat, Job>): System {
    System(Both(Holding(txs, history, stale)), jobs, VERSIONS, 0)
  }

  /** Day 9 is lost: there is a later point, no mark, and the next rebuild starts after it. */
  predicate DayNineIsLost(l: Ledger) {
    Missing(l, 1, 9 * DAY_MS, 0) && !Awaited(l, 1, 9 * DAY_MS, 0)
      && RebuildStart(l, 1, 11 * DAY_MS, 0) == Some(11 * DAY_MS)
  }

  lemma LostForGood(l: Ledger)
    requires l == Holding(l.transactions, [Valued(8), Valued(10)], map[]) && FIRST in l.transactions
    ensures DayNineIsLost(l)
  {
    assert Valued(10) in l.history;
    assert [Valued(8), Valued(10)][..1] == [Valued(8)] && [Valued(8)][..0] == [];
    assert LatestOf([], 1) == None && LatestOf([Valued(8)], 1) == Some(8 * DAY_MS);
    assert LatestOf(l.history, 1) == Some(10 * DAY_MS);
    NextMidnight(10 * DAY_MS, 0);
    DayAt(11 * DAY_MS, 11 * DAY_MS, 0);
  }

  lemma KeptSoFar(history: seq<Point>)
    requires history == [Valued(8)] || history == [Valued(8), Valued(9)]
    ensures Kept(Holding([FIRST], history, map[]), 0)
  {
    var l := Holding([FIRST], history, map[]);
    forall p: nat, d: int | Missing(l, p, d, 0) ensures Awaited(l, p, d, 0) {
      assert p == 1 && d >= 8 * DAY_MS;
      assert Valued(8) in history && d != 8 * DAY_MS;
      Midnights(8 * DAY_MS, d, 0);
      if |history| == 2 {
        assert history[1] == Valued(9) && d != 9 * DAY_MS;
        Midnights(9 * DAY_MS, d, 0);
      }
    }
  }

  /**
   * A transaction is added and deleted again during a rebuild: the result has the right fingerprint,
   * but starts too late.
   */
  const GAP_RUN := [Start(1, 10 * DAY_MS, None), Commit(Add(PASSING, true), true), Commit(Delete(2, true), true),
    Finish(1, Some(10 * DAY_MS), true)]

  lemma RebuildForgetsADay()
    ensures var sys := At([FIRST], [Valued(8), Valued(9)], map[], map[]);
      AllKept(sys) && IsRun(sys, GAP_RUN) && DayNineIsLost(After(sys, GAP_RUN).host.memory)
  {
    var job := Job(10 * DAY_MS, 10 * DAY_MS, [FIRST]);
    var jobs, marks: map<nat, int> := map[1 := job], map[1 := 8 * DAY_MS + 1];
    var s0, s1 := At([FIRST], [Valued(8), Valued(9)], map[], map[]), At([FIRST], [Valued(8), Valued(9)], map[], jobs);
    var s2, s3 := At([FIRST, PASSING], [Valued(8)], marks, jobs), At([FIRST], [Valued(8)], marks, jobs);
    var s4 := At([FIRST], [Valued(8), Valued(10)], map[], map[]);
    KeptSoFar([Valued(8), Valued(9)]);
    GapStarts(s0, s1);
    GapAdds(s1, s2);
    GapDeletes(s2, s3);
    FinishesAtTen(s3, s4, job);
    LostForGood(s4.host.memory);
    hide *;
    FourSteps(s0, s1, s2, s3, s4, GAP_RUN[0], GAP_RUN[1], GAP_RUN[2], GAP_RUN[3]);
  }

  lemma GapStarts(s0: System, s1: System)
    requires s0 == At([FIRST], [Valued(8), Valued(9)], map[], map[])
    requires s1 == At([FIRST], [Valued(8), Valued(9)], map[], map[1 := Job(10 * DAY_MS, 10 * DAY_MS, [FIRST])])
    ensures Enabled(s0, GAP_RUN[0]) && Next(s0, GAP_RUN[0]) == s1
  {
    var history, job := [Valued(8), Valued(9)], Job(10 * DAY_MS, 10 * DAY_MS, [FIRST]);
    assert history[..1] == [Valued(8)] && [Valued(8)][..0] == [];
    assert LatestOf([], 1) == None && LatestOf([Valued(8)], 1) == Some(8 * DAY_MS)
      && LatestOf(history, 1) == Some(9 * DAY_MS);
    NextMidnight(9 * DAY_MS, 0);
    DayAt(10 * DAY_MS, 10 * DAY_MS, 0);
    Alone(FIRST, 1, 0, 0);
    assert s0.jobs[1 := job] == s1.jobs;
  }

  lemma GapAdds(s1: System, s2: System)
    requires s1.jobs == s2.jobs && s1 == At([FIRST], [Valued(8), Valued(9)], map[], s1.jobs)
    requires s2 == At([FIRST, PASSING], [Valued(8)], map[1 := 8 * DAY_MS + 1], s2.jobs)
    ensures Enabled(s1, GAP_RUN[1]) && Next(s1, GAP_RUN[1]) == s2
  {
    var l := s1.host.memory;
    assert [FIRST] + [PASSING] == [FIRST, PASSING];
    OnlyDayEightStays();
    assert l.stale[1 := 8 * DAY_MS + 1] == s2.host.memory.stale;
    assert l.portfolios[0].id == 1 && HasPortfolio(l, 1);
    assert Edited(l, Add(PASSING, true)) == Some(s2.host.memory) by {
      hide PointsBefore;
    }
    hide Edited;
  }

  lemma OnlyDayEightStays()
    ensures PointsBefore([Valued(8), Valued(9)], 1, 8 * DAY_MS + 1) == [Valued(8)]
  {
    AlonePoint(Valued(8), 1, 8 * DAY_MS + 1);
    assert [Valued(8), Valued(9)][..1] == [Valued(8)] && [Valued(8)] + [] == [Valued(8)];
  }

  lemma GapDeletes(s2: System, s3: System)
    requires s2.jobs == s3.jobs && s2 == At([FIRST, PASSING], [Valued(8)], map[1 := 8 * DAY_MS + 1], s2.jobs)
    requires s3 == At([FIRST], [Valued(8)], map[1 := 8 * DAY_MS + 1], s3.jobs)
    ensures Enabled(s2, GAP_RUN[2]) && Next(s2, GAP_RUN[2]) == s3
  {
    var l := s2.host.memory;
    Alone(PASSING, 1, 0, 2);
    AlonePoint(Valued(8), 1, 8 * DAY_MS + 1);
    assert [FIRST, PASSING][1..] == [PASSING] && [FIRST] + [] == [FIRST];
    assert PositionOf([FIRST, PASSING], 2) == Some(1) && WithoutId([FIRST, PASSING], 2) == [FIRST];
    assert l.stale[1 := 8 * DAY_MS + 1] == l.stale;
    assert Edited(l, Delete(2, true)) == Some(s3.host.memory);
    hide Edited;
  }

  lemma FinishesAtTen(s3: System, s4: System, job: Job)
    requires s3.host == Both(Holding(job.txs, [Valued(8)], s3.host.memory.stale)) && s3.offset == 0
      && s3.versions == VERSIONS
    requires job.txs == [FIRST] || job.txs == [FIRST, TODAY]
    requires job.from == 10 * DAY_MS <= job.nowMs < 11 * DAY_MS && s3.jobs == map[1 := job]
      && s3.host.memory.stale.Keys == {1}
    requires s4 == At(job.txs, [Valued(8), Valued(10)], map[], map[])
    ensures Enabled(s3, Finish(1, Some(10 * DAY_MS), true)) && Next(s3, Finish(1, Some(10 * DAY_MS), true)) == s4
  {
    OwnAtTen(job.txs);
    assert Days(11 * DAY_MS, job.nowMs) == [] && Days(10 * DAY_MS, job.nowMs) == [10 * DAY_MS] + [] == [10 * DAY_MS];
    assert PointsOf(1, job.txs, [10 * DAY_MS]) == [Valued(10)];
    AlonePoint(Valued(8), 1, 10 * DAY_MS);
    assert s3.host.memory.stale - {1} == map[] && s3.jobs - {1} == map[];
    assert [Valued(8)] + [Valued(10)] == [Valued(8), Valued(10)];
  }

  lemma OwnAtTen(txs: seq<Tx>)
    requires txs == [FIRST] || txs == [FIRST, TODAY]
    ensures OwnOf(txs, 1) == txs && multiset(Relevant(txs, 1, 10 * DAY_MS)) == multiset{FIRST}
  {
    Alone(FIRST, 1, 10 * DAY_MS, 0);
    Alone(TODAY, 1, 10 * DAY_MS, 0);
    assert [FIRST, TODAY][1..] == [TODAY];
    assert [FIRST] + [TODAY] == [FIRST, TODAY] && [FIRST] + [] == [FIRST];
    assert OwnOf(txs, 1) == txs && Relevant(txs, 1, 10 * DAY_MS) == [FIRST];
  }

  /** After two days away, a purchase of today is entered before the missed days are built: only today is. */
  const AWAY_RUN := [Commit(Add(TODAY, true), true), Start(1, 10 * DAY_MS + 2, None),
    Finish(1, Some(10 * DAY_MS), true)]

  lemma EditForgetsADay()
    ensures var sys := At([FIRST], [Valued(8)], map[], map[]);
      AllKept(sys) && IsRun(sys, AWAY_RUN) && DayNineIsLost(After(sys, AWAY_RUN).host.memory)
  {
    var job := Job(10 * DAY_MS, 10 * DAY_MS + 2, [FIRST, TODAY]);
    var marks: map<nat, int> := map[1 := 10 * DAY_MS + 1];
    var s0, s1 := At([FIRST], [Valued(8)], map[], map[]), At([FIRST, TODAY], [Valued(8)], marks, map[]);
    var s2, s3 := At([FIRST, TODAY], [Valued(8)], marks, map[1 := job]),
      At([FIRST, TODAY], [Valued(8), Valued(10)], map[], map[]);
    KeptSoFar([Valued(8)]);
    AwayAdds(s0, s1);
    AwayStarts(s1, s2);
    FinishesAtTen(s2, s3, job);
    LostForGood(s3.host.memory);
    hide *;
    ThreeSteps(s0, s1, s2, s3, AWAY_RUN[0], AWAY_RUN[1], AWAY_RUN[2]);
  }

  lemma AwayAdds(s0: System, s1: System)
    requires s0 == At([FIRST], [Valued(8)], map[], map[])
      && s1 == At([FIRST, TODAY], [Valued(8)], map[1 := 10 * DAY_MS + 1], map[])
    ensures Enabled(s0, AWAY_RUN[0]) && Next(s0, AWAY_RUN[0]) == s1
  {
    var l := s0.host.memory;
    assert [FIRST] + [TODAY] == [FIRST, TODAY];
    AlonePoint(Valued(8), 1, 10 * DAY_MS + 1);
    assert l.stale[1 := 10 * DAY_MS + 1] == s1.host.memory.stale;
    assert Edited(l, Add(TODAY, true)) == Some(s1.host.memory);
    hide Edited;
  }

  lemma AwayStarts(s1: System, s2: System)
    requires s1 == At([FIRST, TODAY], [Valued(8)], map[1 := 10 * DAY_MS + 1], map[])
    requires s2 == s1.(jobs := map[1 := Job(10 * DAY_MS, 10 * DAY_MS + 2, [FIRST, TODAY])])
    ensures Enabled(s1, AWAY_RUN[1]) && Next(s1, AWAY_RUN[1]) == s2
  {
    DayAt(10 * DAY_MS, 10 * DAY_MS + 1, 0);
    DayAt(10 * DAY_MS, 10 * DAY_MS + 2, 0);
    OwnAtTen([FIRST, TODAY]);
    assert s1.jobs[1 := Job(10 * DAY_MS, 10 * DAY_MS + 2, [FIRST, TODAY])] == s2.jobs;
  }
}
