// The portfolio host: the ledger in memory and the one in the store, each operation with every way
// it can fail. See src/host/portfolio_host.rs and src/store/portfolio.rs.
module PortfolioHost {
  import opened Text
  import opened PortfolioLedger

  const NOTHING := Ledger([], [], [], map[], None)

  /** The host and the store it works on; sync can change the stored ledger under the one in memory. */
  datatype State = State(memory: Ledger, stored: Ledger, loadFailed: bool)

  // MARK: What the operations do

  /** What reading the store gives: a selection that no longer exists falls back to the first portfolio. */
  function Repaired(l: Ledger): Ledger {
    if l.selected.Some? && HasPortfolio(l, l.selected.value) then l
    else l.(selected := if l.portfolios == [] then None else Some(l.portfolios[0].id))
  }

  function Loaded(stored: Ledger, readOk: bool): State {
    State(if readOk then stored else NOTHING, stored, !readOk)
  }

  /** A ledger that cannot be read leaves the one in memory alone, and does not block later writes. */
  function Reloaded(s: State, readOk: bool): State {
    if readOk then State(Repaired(s.stored), s.stored, false) else s
  }

  predicate Commits(s: State, edit: Edit, writeOk: bool) {
    !s.loadFailed && Edited(s.memory, edit).Some? && writeOk
  }

  function Mutated(s: State, edit: Edit, writeOk: bool): State {
    if Commits(s, edit, writeOk) then s.(memory := Edited(s.memory, edit).value, stored := Edited(s.memory, edit).value)
      else s
  }

  predicate Selects(s: State, id: Option<nat>, writeOk: bool) {
    !s.loadFailed && (id.Some? ==> HasPortfolio(s.memory, id.value)) && writeOk
  }

  function Selected(s: State, id: Option<nat>, writeOk: bool): State {
    if Selects(s, id, writeOk) then s.(memory := s.memory.(selected := id), stored := s.stored.(selected := id)) else s
  }

  /** The ledger once a rebuilt stretch of one portfolio's history is in it. */
  function WithStretch(l: Ledger, p: nat, from: int, points: seq<Point>): Ledger {
    l.(history := PointsBefore(l.history, p, from) + points, stale := l.stale - {p})
  }

  /** Only the stretch and the stale marks are written. */
  function Snapshotted(s: State, p: nat, from: int, points: seq<Point>, writeOk: bool): State {
    if s.loadFailed || !writeOk then s
    else
      s.(memory := WithStretch(s.memory, p, from, points),
         stored := WithStretch(s.stored, p, from, points).(stale := s.memory.stale - {p}))
  }

  datatype Rebuilt = Rebuilt(portfolio: nat, from: int, points: Option<seq<Point>>, basis: multiset<Tx>)

  /** The portfolio still has the transactions the result was computed from. */
  predicate Fits(l: Ledger, result: Rebuilt) {
    result.points.Some? && Fingerprint(OwnOf(l.transactions, result.portfolio)) == result.basis
  }

  function Accepted(s: State, result: Rebuilt, writeOk: bool): State {
    if Fits(s.memory, result) then Snapshotted(s, result.portfolio, result.from, result.points.value, writeOk) else s
  }

  /** A host starts with what is stored, or empty and marked as failed; the store is left alone. */
  lemma HostsStartAsStored(stored: Ledger, readOk: bool)
    ensures var s := Loaded(stored, readOk);
      && s.stored == stored && (s.loadFailed <==> !readOk)
      && (if readOk then s.memory == stored else s.memory.portfolios == [] && s.memory.transactions == [])
  {
  }

  /**
   * A reload that can be read shows the store and ends an earlier failure; the selection stays if
   * its portfolio is there, and is the first portfolio otherwise.
   */
  lemma ReloadsShowTheStore(s: State)
    ensures var after := Reloaded(s, true);
      && after.memory.(selected := s.stored.selected) == s.stored && after.stored == s.stored && !after.loadFailed
      && (if s.stored.selected.Some? && HasPortfolio(s.stored, s.stored.selected.value)
          then after.memory.selected == s.stored.selected
          else if s.stored.portfolios == [] then after.memory.selected == None
          else after.memory.selected == Some(s.stored.portfolios[0].id))
    ensures Reloaded(s, false) == s
  {
  }

  /** An edit that is accepted and written is what both hold; any other leaves both as they were. */
  lemma EditsTakeEffect(s: State, edit: Edit, writeOk: bool)
    ensures var after := Mutated(s, edit, writeOk);
      if !s.loadFailed && Edited(s.memory, edit).Some? && writeOk
      then after == State(Edited(s.memory, edit).value, Edited(s.memory, edit).value, false)
      else after == s
  {
    hide Edited;
  }

  /** A selection that can be made and written is made in both, and changes nothing else. */
  lemma SelectionsTakeEffect(s: State, id: Option<nat>, writeOk: bool)
    ensures var after := Selected(s, id, writeOk);
      if !s.loadFailed && writeOk && (id == None || exists p <- s.memory.portfolios :: id == Some(p.id))
      then
        && after.memory.selected == after.stored.selected == id && !after.loadFailed
        && after.memory.(selected := s.memory.selected) == s.memory
        && after.stored.(selected := s.stored.selected) == s.stored
      else after == s
  {
    if id.Some? && exists p <- s.memory.portfolios :: id == Some(p.id) {
      assert HasPortfolio(s.memory, id.value);
    }
  }

  /**
   * A stretch that is written replaces the portfolio's points from its start in both, and takes its
   * mark off; nothing else changes. The marks written are those in memory.
   */
  lemma StretchesTakeEffect(s: State, p: nat, from: int, points: seq<Point>, writeOk: bool)
    ensures var after := Snapshotted(s, p, from, points, writeOk);
      if !s.loadFailed && writeOk
      then
        && (forall point :: point in after.memory.history <==>
              point in points || (point in s.memory.history && (point.portfolio == p ==> point.timestamp < from)))
        && (forall point :: point in after.stored.history <==>
              point in points || (point in s.stored.history && (point.portfolio == p ==> point.timestamp < from)))
        && after.memory.stale == after.stored.stale == s.memory.stale - {p} && !after.loadFailed
        && after.memory.(history := s.memory.history, stale := s.memory.stale) == s.memory
        && after.stored.(history := s.stored.history, stale := s.stored.stale) == s.stored
      else after == s
  {
  }

  // MARK: Store and host

  class PortfolioStore {
    var saved: Ledger

    constructor (saved: Ledger)
      ensures this.saved == saved
    {
      this.saved := saved;
    }

    method Save(ledger: Ledger, writeOk: bool)
      modifies this
      ensures saved == if writeOk then ledger else old(saved)
    {
      if writeOk {
        saved := ledger;
      }
    }

    method SetSelected(id: Option<nat>, writeOk: bool)
      modifies this
      ensures saved == if writeOk then old(saved).(selected := id) else old(saved)
    {
      if writeOk {
        saved := saved.(selected := id);
      }
    }

    /** Writes only the stretch and the stale marks. */
    method ReplaceHistory(p: nat, from: int, points: seq<Point>, stale: map<nat, int>, writeOk: bool)
      modifies this
      ensures saved == if writeOk
        then old(saved).(history := PointsBefore(old(saved).history, p, from) + points, stale := stale) else old(saved)
    {
      if writeOk {
        saved := saved.(history := PointsBefore(saved.history, p, from) + points, stale := stale);
      }
    }
  }

  class Host {
    var ledger: Ledger
    var loadFailed: bool
    var failed: bool

    ghost function View(store: PortfolioStore): State
      reads this, store
    {
      State(ledger, store.saved, loadFailed)
    }

    constructor (store: PortfolioStore, readOk: bool)
      ensures View(store) == Loaded(store.saved, readOk) && failed == !readOk
    {
      loadFailed, failed := !readOk, !readOk;
      ledger := if readOk then store.saved else NOTHING;
    }

    /** Re-reads the ledger after sync has changed it underneath. */
    method Reload(store: PortfolioStore, readOk: bool)
      modifies this
      ensures View(store) == Reloaded(old(View(store)), readOk) && failed == (old(failed) || !readOk)
    {
      if readOk {
        ledger, loadFailed := Repaired(store.saved), false;
      } else {
        failed := true;
      }
    }

    /** The whole edited ledger is saved, and only then shown. */
    method Mutate(store: PortfolioStore, edit: Edit, writeOk: bool) returns (done: bool)
      modifies this, store
      ensures done == Commits(old(View(store)), edit, writeOk) == !failed
      ensures View(store) == Mutated(old(View(store)), edit, writeOk)
    {
      if loadFailed {
        failed := true;
        return false;
      }
      var candidate := Edited(ledger, edit);
      if candidate.None? {
        failed := true;
        return false;
      }
      store.Save(candidate.value, writeOk);
      if !writeOk {
        failed := true;
        return false;
      }
      ledger, failed := candidate.value, false;
      done := true;
    }

    method Select(store: PortfolioStore, id: Option<nat>, writeOk: bool) returns (done: bool)
      modifies this, store
      ensures done == Selects(old(View(store)), id, writeOk) == !failed
      ensures View(store) == Selected(old(View(store)), id, writeOk)
    {
      if loadFailed || (id.Some? && !HasPortfolio(ledger, id.value)) {
        failed := true;
        return false;
      }
      store.SetSelected(id, writeOk);
      if !writeOk {
        failed := true;
        return false;
      }
      ledger, failed := ledger.(selected := id), false;
      done := true;
    }

    /** A success does not dismiss an earlier error. */
    method StoreSnapshots(
      store: PortfolioStore, points: seq<Point>, p: nat, from: int, writeOk: bool
    ) returns (done: bool)
      modifies this, store
      ensures done <==> !old(loadFailed) && writeOk
      ensures View(store) == Snapshotted(old(View(store)), p, from, points, writeOk) && failed == (old(failed) || !done)
    {
      if loadFailed {
        failed := true;
        return false;
      }
      store.ReplaceHistory(p, from, points, ledger.stale - {p}, writeOk);
      if !writeOk {
        failed := true;
        return false;
      }
      ledger := ledger.(history := PointsBefore(ledger.history, p, from) + points, stale := ledger.stale - {p});
      done := true;
    }

    /** Stores a finished rebuild, if the portfolio still has the transactions it was computed from. */
    method AcceptRebuilt(store: PortfolioStore, result: Rebuilt, writeOk: bool)
      modifies this, store
      ensures View(store) == Accepted(old(View(store)), result, writeOk)
    {
      if result.points.None? {
        return;
      }
      if Fingerprint(OwnOf(ledger.transactions, result.portfolio)) == result.basis {
        var done := StoreSnapshots(store, result.points.value, result.portfolio, result.from, writeOk);
      }
    }
  }

  // MARK: Memory and store

  /** Memory and store hold the same ledger, but for a selection that a reload repaired. */
  predicate Mirrors(s: State) {
    s.memory == s.stored.(selected := s.memory.selected)
  }

  /**
   * Every operation keeps memory and store alike: writing only a stretch and the marks leaves the
   * store as saving the whole new ledger would. And an edit that is saved, or a read that
   * succeeds, makes them alike whatever they were before.
   */
  lemma OperationsMirror(s: State, edit: Edit, id: Option<nat>, p: nat, from: int, points: seq<Point>, ok: bool)
    ensures Mirrors(s) ==>
      && Mirrors(Selected(s, id, ok)) && Mirrors(Snapshotted(s, p, from, points, ok))
      && Mirrors(Mutated(s, edit, ok))
    ensures Commits(s, edit, ok) ==> Mirrors(Mutated(s, edit, ok))
    ensures Mirrors(Reloaded(s, true))
  {
    hide Edited;
  }
}
