// Portfolio history rebuilt off the UI thread while the ledger is edited here and by sync. See
// src/host/portfolio_host.rs, src/service/portfolio_history.rs and src/sync/apply/portfolio.rs.
module PortfolioRuns {
  import opened Text
  import opened PortfolioLedger
  import opened PortfolioHost

  const DAY_MS := 86_400_000

  // MARK: Where a rebuild starts

  /** Midnight at or before `ms`, in a zone that is `offset` ahead. */
  function StartOfDay(ms: int, offset: int): int {
    (ms + offset) / DAY_MS * DAY_MS - offset
  }

  predicate IsMidnight(ms: int, offset: int) {
    (ms + offset) % DAY_MS == 0
  }

  function LatestOf(history: seq<Point>, p: nat): Option<int> {
    if history == [] then None
    else
      var n := |history| - 1;
      match LatestOf(history[..n], p)
      case None => if history[n].portfolio == p then Some(history[n].timestamp) else None
      case Some(t) => Some(if history[n].portfolio == p && history[n].timestamp > t then history[n].timestamp else t)
  }

  function FirstDay(txs: seq<Tx>, p: nat, offset: int): Option<int> {
    if txs == [] then None
    else
      var n := |txs| - 1;
      match FirstDay(txs[..n], p, offset)
      case None => if txs[n].portfolio == p then Some(StartOfDay(txs[n].timestamp, offset)) else None
      case Some(t) => Some(if txs[n].portfolio == p then Min(t, StartOfDay(txs[n].timestamp, offset)) else t)
  }

  /** At the mark, or the day after the latest point, or with the first transaction. */
  function RebuildStart(l: Ledger, p: nat, nowMs: int, offset: int): Option<int> {
    var today := StartOfDay(nowMs, offset);
    if p in l.stale then Some(Min(StartOfDay(l.stale[p], offset), today))
    else
      match LatestOf(l.history, p)
      case Some(latest) =>
        var next := StartOfDay(StartOfDay(latest, offset) + DAY_MS + DAY_MS / 2, offset);
        if next <= today then Some(next) else None
      case None => FirstDay(l.transactions, p, offset)
  }

  // MARK: Steps

  /** A rebuild under way, with the portfolio's transactions as they were when it started. */
  datatype Job = Job(from: int, nowMs: int, txs: seq<Tx>)

  /** `versions` are all transactions there ever were, `offset` the zone. */
  datatype System = System(host: State, jobs: map<nat, Job>, versions: set<Tx>, offset: int)

  /**
   * `retry` is where to try again to price an asset that had no candles. A result has points from the
   * first midnight that could be priced, or nothing. What sync changes, it changes in the store.
   */
  datatype Action =
    | Commit(edit: Edit, writeOk: bool)
    | Choose(id: Option<nat>, writeOk: bool)
    | Start(p: nat, nowMs: int, retry: Option<int>)
    | Finish(p: nat, first: Option<int>, writeOk: bool)
    | Synced(edits: seq<Edit>, readOk: bool)

  /** Ids are minted once, and a copied portfolio's transactions are its own. */
  predicate Allowed(l: Ledger, edit: Edit, versions: set<Tx>) {
    && WellFormed(edit)
    && (Edited(l, edit).Some? ==>
          UniqueIds(Edited(l, edit).value.transactions) && AllIn(Edited(l, edit).value.transactions, versions))
  }

  predicate AllAllowed(l: Ledger, edits: seq<Edit>, versions: set<Tx>)
    decreases edits
  {
    edits == [] || (
      && Allowed(l, edits[0], versions) && Edited(l, edits[0]).Some?
      && AllAllowed(Edited(l, edits[0]).value, edits[1..], versions))
  }

  function EditedAll(l: Ledger, edits: seq<Edit>, versions: set<Tx>): Ledger
    requires AllAllowed(l, edits, versions)
    decreases edits
  {
    if edits == [] then l else EditedAll(Edited(l, edits[0]).value, edits[1..], versions)
  }

  function StartOf(sys: System, p: nat, nowMs: int, retry: Option<int>): Option<int> {
    var start := RebuildStart(sys.host.memory, p, nowMs, sys.offset);
    if start.Some? then start else retry
  }

  /** The portfolio is listed and not archived. */
  predicate IsOpen(l: Ledger, id: nat) {
    exists p <- l.portfolios :: p.id == id && !p.archived
  }

  predicate Enabled(sys: System, action: Action) {
    match action
    case Commit(edit, _) => Allowed(sys.host.memory, edit, sys.versions)
    case Choose(_, _) => true
    case Start(p, nowMs, retry) =>
      && !sys.host.loadFailed && IsOpen(sys.host.memory, p) && p !in sys.jobs
      && (retry.Some? ==> IsMidnight(retry.value, sys.offset))
      && StartOf(sys, p, nowMs, retry).Some?
    case Finish(p, first, _) =>
      && !sys.host.loadFailed && p in sys.jobs
      && (first.Some? ==>
        && sys.jobs[p].txs != []
        && first.value >= sys.jobs[p].from && IsMidnight(first.value, sys.offset))
    case Synced(edits, _) => AllAllowed(sys.host.stored, edits, sys.versions)
  }

  /** The midnights from `first` through `last`. */
  function Days(first: int, last: int): (days: seq<int>)
    ensures forall d :: d in days <==> first <= d <= last && (d - first) % DAY_MS == 0
    decreases last - first
  {
    if first > last then [] else [first] + Days(first + DAY_MS, last)
  }

  function PointsOf(p: nat, txs: seq<Tx>, days: seq<int>): (points: seq<Point>)
    ensures |points| == |days| && forall i :: 0 <= i < |days| ==>
      points[i] == Point(p, days[i], multiset(Relevant(txs, p, days[i])))
  {
    seq(|days|, i requires 0 <= i < |days| => Point(p, days[i], multiset(Relevant(txs, p, days[i]))))
  }

  function ResultOf(p: nat, job: Job, first: Option<int>): Rebuilt {
    Rebuilt(p, job.from, if first.Some? then Some(PointsOf(p, job.txs, Days(first.value, job.nowMs))) else None,
      Fingerprint(job.txs))
  }

  function Next(sys: System, action: Action): System
    requires Enabled(sys, action)
  {
    match action
    case Commit(edit, writeOk) => sys.(host := Mutated(sys.host, edit, writeOk))
    case Choose(id, writeOk) => sys.(host := Selected(sys.host, id, writeOk))
    case Start(p, nowMs, retry) =>
      sys.(jobs := sys.jobs[p :=
        Job(StartOf(sys, p, nowMs, retry).value, nowMs, OwnOf(sys.host.memory.transactions, p))])
    case Finish(p, first, writeOk) =>
      sys.(host := Accepted(sys.host, ResultOf(p, sys.jobs[p], first), writeOk), jobs := sys.jobs - {p})
    case Synced(edits, readOk) =>
      sys.(host := Reloaded(sys.host.(stored := EditedAll(sys.host.stored, edits, sys.versions)), readOk))
  }

  ghost predicate IsRun(sys: System, actions: seq<Action>)
    decreases actions
  {
    actions == [] || (Enabled(sys, actions[0]) && IsRun(Next(sys, actions[0]), actions[1..]))
  }

  ghost function After(sys: System, actions: seq<Action>): System
    requires IsRun(sys, actions)
    decreases actions
  {
    if actions == [] then sys else After(Next(sys, actions[0]), actions[1..])
  }

  /** The action stores a rebuilt stretch. */
  predicate Stores(sys: System, action: Action)
    requires Enabled(sys, action)
  {
    action.Finish? && action.writeOk && Fits(sys.host.memory, ResultOf(action.p, sys.jobs[action.p], action.first))
  }

  // MARK: History is sound

  predicate LedgerIsSound(l: Ledger, versions: set<Tx>) {
    HistoryIsSound(l) && UniqueIds(l.transactions) && AllIn(l.transactions, versions)
  }

  /** Every point, in memory and in the store, was computed from exactly what it depends on now. */
  predicate Sound(sys: System) {
    && LedgerIsSound(sys.host.memory, sys.versions) && LedgerIsSound(sys.host.stored, sys.versions)
    && forall p <- sys.jobs :: AllIn(sys.jobs[p].txs, sys.versions)
  }

  lemma {:induction false} OwnIsIn(txs: seq<Tx>, p: nat, versions: set<Tx>)
    requires AllIn(txs, versions)
    ensures AllIn(OwnOf(txs, p), versions)
  {
    if txs != [] {
      assert AllIn(txs[1..], versions);
      OwnIsIn(txs[1..], p, versions);
      assert txs[0] in txs;
    }
  }

  /** A result with the fingerprint of the current transactions is about exactly those. */
  lemma FittingPointsAreSound(l: Ledger, p: nat, job: Job, days: seq<int>, versions: set<Tx>)
    requires EditsShow(versions) && AllIn(l.transactions, versions) && AllIn(job.txs, versions)
    requires Fingerprint(OwnOf(l.transactions, p)) == Fingerprint(job.txs)
    ensures forall d: int :: multiset(Relevant(job.txs, p, d)) == multiset(Relevant(l.transactions, p, d))
  {
    OwnIsIn(l.transactions, p, versions);
    FingerprintTells(OwnOf(l.transactions, p), job.txs, versions);
    forall d: int ensures multiset(Relevant(job.txs, p, d)) == multiset(Relevant(l.transactions, p, d)) {
      RelevantOfSame(job.txs, OwnOf(l.transactions, p), p, d);
      RelevantOfOwn(l.transactions, p, d);
    }
  }

  /** For each day of the stretch the store has the same transactions as memory. */
  predicate Settles(sys: System, action: Action)
    requires Enabled(sys, action)
  {
    Stores(sys, action) && action.first.Some? ==>
      forall d <- Days(action.first.value, sys.jobs[action.p].nowMs) ::
        multiset(Relevant(sys.host.stored.transactions, action.p, d))
          == multiset(Relevant(sys.host.memory.transactions, action.p, d))
  }

  lemma StretchIsSound(l: Ledger, p: nat, from: int, txs: seq<Tx>, days: seq<int>)
    requires HistoryIsSound(l)
    ensures HistoryIsSound(WithStretch(l, p, from, PointsOf(p, txs, days))) <==>
      forall d <- days :: multiset(Relevant(l.transactions, p, d)) == multiset(Relevant(txs, p, d))
  {
    var points := PointsOf(p, txs, days);
    PointsAreSound(l, p, txs, days);
    hide PointsOf, Relevant;
    var after := WithStretch(l, p, from, points);
    assert after.transactions == l.transactions && after.history == PointsBefore(l.history, p, from) + points;
    assert forall point :: point in after.history <==> point in PointsBefore(l.history, p, from) || point in points;
  }

  lemma PointsAreSound(l: Ledger, p: nat, txs: seq<Tx>, days: seq<int>)
    ensures (forall point <- PointsOf(p, txs, days) ::
      point.basis == multiset(Relevant(l.transactions, point.portfolio, point.timestamp)))
      <==> forall d <- days :: multiset(Relevant(l.transactions, p, d)) == multiset(Relevant(txs, p, d))
  {
    hide Relevant;
    var points := PointsOf(p, txs, days);
    forall d | d in days ensures Point(p, d, multiset(Relevant(txs, p, d))) in points {
      var i :| 0 <= i < |days| && days[i] == d;
      assert points[i] == Point(p, d, multiset(Relevant(txs, p, d)));
    }
    forall point | point in points
      ensures point.portfolio == p && point.timestamp in days
        && point.basis == multiset(Relevant(txs, p, point.timestamp))
    {
      var i :| 0 <= i < |points| && points[i] == point;
      assert days[i] in days;
    }
  }

  lemma {:induction false} EditedAllIsSound(l: Ledger, edits: seq<Edit>, versions: set<Tx>)
    requires LedgerIsSound(l, versions) && AllAllowed(l, edits, versions)
    ensures LedgerIsSound(EditedAll(l, edits, versions), versions)
    decreases edits
  {
    hide Edited, HistoryIsSound;
    if edits != [] {
      EditsKeepHistorySound(l, edits[0]);
      EditedAllIsSound(Edited(l, edits[0]).value, edits[1..], versions);
    }
  }

  lemma FinishIsSound(sys: System, action: Action)
    requires Sound(sys) && EditsShow(sys.versions) && Enabled(sys, action) && Stores(sys, action)
    ensures Sound(Next(sys, action)) <==> Settles(sys, action)
  {
    hide Relevant, EditsShow, UniqueIds, HistoryIsSound;
    var p, job, first := action.p, sys.jobs[action.p], action.first.value;
    var days := Days(first, job.nowMs);
    assert AllIn(job.txs, sys.versions);
    FittingPointsAreSound(sys.host.memory, p, job, days, sys.versions);
    StretchIsSound(sys.host.memory, p, job.from, job.txs, days);
    StretchIsSound(sys.host.stored, p, job.from, job.txs, days);
    var stretched := WithStretch(sys.host.stored, p, job.from, PointsOf(p, job.txs, days));
    MarksDoNotMatter(stretched, sys.host.memory.stale - {p});
  }

  lemma MarksDoNotMatter(l: Ledger, stale: map<nat, int>)
    ensures HistoryIsSound(l) <==> HistoryIsSound(l.(stale := stale))
  {
  }

  lemma SelectionDoesNotMatter(l: Ledger, selected: Option<nat>, versions: set<Tx>)
    ensures LedgerIsSound(l, versions) <==> LedgerIsSound(l.(selected := selected), versions)
  {
  }

  /**
   * An edit, a start, a read and what sync brings keep the history sound. Storing a rebuild does
   * exactly if, for each of its days, the store has the transactions memory has: a sync that could
   * not be read may have changed them.
   */
  lemma SoundExactlyWhenSettled(sys: System, action: Action)
    requires Sound(sys) && EditsShow(sys.versions) && Enabled(sys, action)
    ensures Sound(Next(sys, action)) <==> Settles(sys, action)
  {
    match action {
      case Commit(edit, writeOk) =>
        hide Edited, HistoryIsSound;
        if Commits(sys.host, edit, writeOk) {
          EditsKeepHistorySound(sys.host.memory, edit);
        }
      case Choose(id, writeOk) =>
        SelectionDoesNotMatter(sys.host.memory, id, sys.versions);
        SelectionDoesNotMatter(sys.host.stored, id, sys.versions);
        hide LedgerIsSound;
      case Start(p, nowMs, retry) =>
        OwnIsIn(sys.host.memory.transactions, p, sys.versions);
        hide LedgerIsSound, OwnOf, RebuildStart;
      case Finish(p, first, writeOk) =>
        if Stores(sys, action) {
          FinishIsSound(sys, action);
        } else {
          hide LedgerIsSound;
        }
      case Synced(edits, readOk) =>
        EditedAllIsSound(sys.host.stored, edits, sys.versions);
        var l := EditedAll(sys.host.stored, edits, sys.versions);
        SelectionDoesNotMatter(l, Repaired(l).selected, sys.versions);
        hide LedgerIsSound;
    }
  }

  ghost predicate AlwaysSound(sys: System, actions: seq<Action>)
    requires IsRun(sys, actions)
    decreases actions
  {
    Sound(sys) && (actions == [] || AlwaysSound(Next(sys, actions[0]), actions[1..]))
  }

  ghost predicate AllSettle(sys: System, actions: seq<Action>)
    requires IsRun(sys, actions)
    decreases actions
  {
    actions == [] || (Settles(sys, actions[0]) && AllSettle(Next(sys, actions[0]), actions[1..]))
  }

  /**
   * However rebuilds, edits and syncs interleave, the history is sound in every state exactly if
   * each rebuild is stored while the store has the transactions it is for, provided that edits
   * show in the fingerprint.
   */
  lemma {:induction false} HistoryStaysSound(sys: System, actions: seq<Action>)
    requires Sound(sys) && EditsShow(sys.versions) && IsRun(sys, actions)
    ensures AlwaysSound(sys, actions) <==> AllSettle(sys, actions)
    decreases actions
  {
    hide Sound, Next, Enabled, EditsShow, Settles;
    if actions != [] {
      SoundExactlyWhenSettled(sys, actions[0]);
      assert Next(sys, actions[0]).versions == sys.versions by {
        VersionsStay(sys, actions[0]);
      }
      if Sound(Next(sys, actions[0])) {
        HistoryStaysSound(Next(sys, actions[0]), actions[1..]);
      }
    }
  }

  lemma VersionsStay(sys: System, action: Action)
    requires Enabled(sys, action)
    ensures Next(sys, action).versions == sys.versions && Next(sys, action).offset == sys.offset
  {
  }

  /** While every sync can be read, memory mirrors the store and each rebuild is stored where it belongs. */
  lemma {:induction false} ReadableSyncsSettle(sys: System, actions: seq<Action>)
    requires Mirrors(sys.host) && IsRun(sys, actions)
    requires forall action <- actions :: action.Synced? ==> action.readOk
    ensures AllSettle(sys, actions) && Mirrors(After(sys, actions).host)
    decreases actions
  {
    hide Next, Enabled, Mirrors, Settles;
    if actions != [] {
      assert actions[0] in actions;
      MirroringSettles(sys, actions[0]);
      ReadableSyncsSettle(Next(sys, actions[0]), actions[1..]);
    }
  }

  lemma MirroringSettles(sys: System, action: Action)
    requires Mirrors(sys.host) && Enabled(sys, action) && (action.Synced? ==> action.readOk)
    ensures Settles(sys, action) && Mirrors(Next(sys, action).host)
  {
    hide Edited, Relevant, RebuildStart;
  }

  /** Without the proviso about edits it fails: one that does not show lets a result for the old version in. */
  lemma SilentEditIsNotNoticed(a: Tx, b: Tx, day: int)
    requires a != b && Covered(a) == Covered(b) && a.timestamp <= day
    ensures var l := Ledger([Portfolio(b.portfolio, "Main", false)], [b], [], map[], None);
      !HistoryIsSound(Accepted(State(l, l, false), ResultOf(a.portfolio, Job(day, day, [a]), Some(day)), true).memory)
  {
    var l, p := Ledger([Portfolio(b.portfolio, "Main", false)], [b], [], map[], None), a.portfolio;
    Alone(a, p, day, 0);
    Alone(b, p, day, 0);
    assert day in Days(day, day);
    StretchIsSound(l, p, day, [a], Days(day, day));
    assert multiset([a])[a] == 1 && multiset([b])[a] == 0;
  }

  /** A rebuild that outlives its portfolio is dropped. */
  lemma DeletedPortfolioTakesNoResult(l: Ledger, p: nat, selected: Option<nat>, job: Job, first: Option<int>)
    requires job.txs != [] && HasPortfolio(l, p)
    ensures var deleted := Edited(l, DeletePortfolio(p, selected)).value; !Fits(deleted, ResultOf(p, job, first))
  {
    NothingIsOwn(l.transactions, p);
    assert Fingerprint([]) == multiset{};
    OnlyNothingHasNoFingerprint(job.txs);
  }

  lemma {:induction false} NothingIsOwn(txs: seq<Tx>, p: nat)
    ensures OwnOf(WithoutPortfolio(txs, p), p) == []
  {
    if txs != [] {
      NothingIsOwn(txs[1..], p);
      if txs[0].portfolio != p {
        assert WithoutPortfolio(txs, p)[1..] == WithoutPortfolio(txs[1..], p);
      }
    }
  }

  // MARK: A ledger that could not be read

  function WithStored(sys: System, l: Ledger): System {
    sys.(host := sys.host.(stored := l))
  }

  predicate NoSync(actions: seq<Action>) {
    forall action <- actions :: !action.Synced?
  }

  /** Some edit of the run is saved. */
  ghost predicate Saves(sys: System, actions: seq<Action>)
    requires IsRun(sys, actions)
    decreases actions
  {
    actions != [] && (
      || (actions[0].Commit? && Commits(sys.host, actions[0].edit, actions[0].writeOk))
      || Saves(Next(sys, actions[0]), actions[1..]))
  }

  /** What matters of a stored ledger: everything but the selection and the history derived from it. */
  predicate SameBooks(a: Ledger, b: Ledger) {
    a.portfolios == b.portfolios && a.transactions == b.transactions
  }

  lemma StepWith(sys: System, action: Action, l: Ledger)
    requires Enabled(sys, action) && !action.Synced?
    ensures Enabled(WithStored(sys, l), action)
    ensures var after := Next(WithStored(sys, l), action);
      && after == WithStored(Next(sys, action), after.host.stored)
      && (action.Commit? && Commits(sys.host, action.edit, action.writeOk) ==> after.host.stored == after.host.memory)
      && (!(action.Commit? && Commits(sys.host, action.edit, action.writeOk)) ==> SameBooks(after.host.stored, l))
    ensures action.Commit? ==>
      Commits(WithStored(sys, l).host, action.edit, action.writeOk) == Commits(sys.host, action.edit, action.writeOk)
  {
    hide Edited, RebuildStart;
  }

  /**
   * A run without syncs from a store that holds `l`, which was perhaps never read: as long as no
   * edit is saved the books in it stay, and the first that is replaces them by those in memory.
   */
  lemma {:induction false} StoredAfterRun(sys: System, actions: seq<Action>, l: Ledger)
    requires IsRun(sys, actions) && NoSync(actions)
    ensures IsRun(WithStored(sys, l), actions)
    ensures var after := After(WithStored(sys, l), actions);
      && after == WithStored(After(sys, actions), after.host.stored)
      && (Saves(sys, actions) ==> SameBooks(after.host.stored, After(sys, actions).host.memory))
      && (!Saves(sys, actions) ==> SameBooks(after.host.stored, l))
    decreases actions
  {
    hide Next, Enabled, Commits;
    if actions != [] {
      assert actions[0] in actions && NoSync(actions[1..]);
      StepWith(sys, actions[0], l);
      var next := Next(sys, actions[0]);
      StoredAfterRun(next, actions[1..], Next(WithStored(sys, l), actions[0]).host.stored);
      if !Saves(next, actions[1..]) {
        BooksStayInMemory(next, actions[1..]);
      }
    }
  }

  lemma MemoryStep(sys: System, action: Action)
    requires Enabled(sys, action) && !action.Synced?
      && !(action.Commit? && Commits(sys.host, action.edit, action.writeOk))
    ensures SameBooks(Next(sys, action).host.memory, sys.host.memory)
  {
    hide Edited, RebuildStart;
  }

  lemma {:induction false} BooksStayInMemory(sys: System, actions: seq<Action>)
    requires IsRun(sys, actions) && NoSync(actions) && !Saves(sys, actions)
    ensures SameBooks(After(sys, actions).host.memory, sys.host.memory)
    decreases actions
  {
    hide Next, Enabled, Commits;
    if actions != [] {
      assert actions[0] in actions && NoSync(actions[1..]);
      MemoryStep(sys, actions[0]);
      BooksStayInMemory(Next(sys, actions[0]), actions[1..]);
    }
  }

  /**
   * A ledger that sync stored and a reload could not read survives exactly until the next edit is
   * saved: whatever it holds, its books are still there if and only if none was. After a load that
   * failed none ever is.
   */
  lemma UnreadLedgerSurvives(sys: System, actions: seq<Action>)
    requires IsRun(sys, actions) && NoSync(actions)
    ensures (forall l: Ledger ::
      IsRun(WithStored(sys, l), actions) && SameBooks(After(WithStored(sys, l), actions).host.stored, l))
      <==> !Saves(sys, actions)
    ensures sys.host.loadFailed ==> !Saves(sys, actions) && After(sys, actions).host == sys.host
  {
    forall l: Ledger ensures
      && IsRun(WithStored(sys, l), actions)
      && (!Saves(sys, actions) ==> SameBooks(After(WithStored(sys, l), actions).host.stored, l))
    {
      StoredAfterRun(sys, actions, l);
    }
    if Saves(sys, actions) {
      var memory := After(sys, actions).host.memory;
      var other := memory.(transactions := memory.transactions + [Tx(0, 0, "", 0, 0, 0, "")]);
      StoredAfterRun(sys, actions, other);
      assert |other.transactions| != |memory.transactions|;
    }
    if sys.host.loadFailed {
      NothingAfterFailedLoad(sys, actions);
    }
  }

  lemma {:induction false} NothingAfterFailedLoad(sys: System, actions: seq<Action>)
    requires IsRun(sys, actions) && NoSync(actions) && sys.host.loadFailed
    ensures !Saves(sys, actions) && After(sys, actions).host == sys.host
    decreases actions
  {
    if actions != [] {
      assert actions[0] in actions && NoSync(actions[1..]);
      assert Next(sys, actions[0]).host == sys.host;
      hide Next, Enabled;
      NothingAfterFailedLoad(Next(sys, actions[0]), actions[1..]);
    }
  }

  // MARK: Two runs after a sync that could not be read

  const MAIN := Portfolio(1, "Main", false)
  const MINE := Tx(1, 1, "BTC", 0, 0, 0, "")
  const THEIRS := Tx(2, 1, "BTC", 0, 0, 1, "")
  const LATER := Tx(3, 1, "ETH", DAY_MS, 0, 2, "")
  const ALL := {MINE, THEIRS, LATER}

  function Holding(txs: seq<Tx>, history: seq<Point>, stale: map<nat, int>): Ledger {
    Ledger([MAIN], txs, history, stale, Some(1))
  }

  lemma NoSteps(sys: System)
    ensures IsRun(sys, []) && After(sys, []) == sys && AllSettle(sys, [])
  {
  }

  lemma OneMore(sys: System, action: Action, rest: seq<Action>)
    requires Enabled(sys, action) && IsRun(Next(sys, action), rest)
    ensures IsRun(sys, [action] + rest) && After(sys, [action] + rest) == After(Next(sys, action), rest)
    ensures AllSettle(sys, [action] + rest) <==> Settles(sys, action) && AllSettle(Next(sys, action), rest)
  {
    hide Next, Enabled, Settles;
    assert ([action] + rest)[1..] == rest && ([action] + rest)[0] == action;
  }

  lemma ThreeSteps(s0: System, s1: System, s2: System, s3: System, a: Action, b: Action, c: Action)
    requires Enabled(s0, a) && Next(s0, a) == s1 && Enabled(s1, b) && Next(s1, b) == s2 && Enabled(s2, c)
      && Next(s2, c) == s3
    ensures IsRun(s0, [a, b, c]) && After(s0, [a, b, c]) == s3
    ensures AllSettle(s0, [a, b, c]) <==> Settles(s0, a) && Settles(s1, b) && Settles(s2, c)
  {
    hide *;
    NoSteps(s3);
    assert [c] + [] == [c] && [b] + [c] == [b, c] && [a] + [b, c] == [a, b, c];
    OneMore(s2, c, []);
    OneMore(s1, b, [c]);
    OneMore(s0, a, [b, c]);
  }

  lemma FourSteps(
    s0: System, s1: System, s2: System, s3: System, s4: System, a: Action, b: Action, c: Action, d: Action
  )
    requires Enabled(s0, a) && Next(s0, a) == s1 && Enabled(s1, b) && Next(s1, b) == s2
    requires Enabled(s2, c) && Next(s2, c) == s3 && Enabled(s3, d) && Next(s3, d) == s4
    ensures IsRun(s0, [a, b, c, d]) && After(s0, [a, b, c, d]) == s4
  {
    hide *;
    ThreeSteps(s1, s2, s3, s4, b, c, d);
    assert [a] + [b, c, d] == [a, b, c, d];
    OneMore(s0, a, [b, c, d]);
  }

  /** Another Mac's transaction arrives and cannot be read; the next edit here writes it away. */
  const WIPING_RUN := [Synced([Receive(THEIRS)], false), Commit(Add(LATER, true), true)]

  lemma UnreadTransactionIsWiped()
    ensures var sys := System(State(Holding([MINE], [], map[]), Holding([MINE], [], map[]), false), map[], ALL, 0);
      && IsRun(sys, WIPING_RUN) && THEIRS in Next(sys, WIPING_RUN[0]).host.stored.transactions
      && After(sys, WIPING_RUN).host.stored.transactions == [MINE, LATER]
  {
    var l := Holding([MINE], [], map[]);
    var sys := System(State(l, l, false), map[], ALL, 0);
    assert [Receive(THEIRS)][1..] == [];
    Alone(MINE, 1, 0, THEIRS.id);
    assert [MINE] + [THEIRS] == [MINE, THEIRS] && [MINE] + [LATER] == [MINE, LATER];
    var received := Edited(l, Receive(THEIRS)).value;
    assert received.transactions == [MINE, THEIRS];
    assert AllAllowed(received, [], ALL);
    assert AllAllowed(l, [Receive(THEIRS)], ALL) && EditedAll(l, [Receive(THEIRS)], ALL) == received;
    var s1 := Next(sys, WIPING_RUN[0]);
    NoSteps(Next(s1, WIPING_RUN[1]));
    assert [WIPING_RUN[1]] + [] == [WIPING_RUN[1]];
    OneMore(s1, WIPING_RUN[1], []);
    OneMore(sys, WIPING_RUN[0], [WIPING_RUN[1]]);
    assert [WIPING_RUN[0]] + [WIPING_RUN[1]] == WIPING_RUN;
  }

  /**
   * The same transaction arrives during a rebuild; the result is stored beside it, computed without it,
   * and unmarked.
   */
  const STALE_RUN := [Start(1, 0, None), Synced([Receive(THEIRS)], false), Finish(1, Some(0), true)]

  lemma UnreadSyncTakesAnOldResult()
    ensures var l := Holding([MINE], [], map[]);
      var sys := System(State(l, l, false), map[], ALL, 0);
      Sound(sys) && EditsShow(ALL) && IsRun(sys, STALE_RUN) && !AlwaysSound(sys, STALE_RUN)
        && After(sys, STALE_RUN).host.stored.stale == map[]
  {
    var l, received := Holding([MINE], [], map[]), Holding([MINE, THEIRS], [], map[1 := 0]);
    var sys, job := System(State(l, l, false), map[], ALL, 0), Job(0, 0, [MINE]);
    var s1 := sys.(jobs := map[1 := job]);
    var s2 := s1.(host := State(l, received, false));
    StaleStart(sys);
    StaleSync(s1, received);
    StaleFinish(s2, job);
    hide Sound, Enabled, Next, Settles, EditsShow;
    var s3 := Next(s2, STALE_RUN[2]);
    ThreeSteps(sys, s1, s2, s3, STALE_RUN[0], STALE_RUN[1], STALE_RUN[2]);
    HistoryStaysSound(sys, STALE_RUN);
  }

  lemma StaleStart(sys: System)
    requires var l := Holding([MINE], [], map[]); sys == System(State(l, l, false), map[], ALL, 0)
    ensures Sound(sys) && EditsShow(ALL) && Enabled(sys, STALE_RUN[0])
    ensures Next(sys, STALE_RUN[0]) == sys.(jobs := map[1 := Job(0, 0, [MINE])])
  {
    Alone(MINE, 1, 0, 0);
    assert [MINE][..0] == [] && FirstDay([], 1, 0) == None;
    assert FirstDay([MINE], 1, 0) == Some(0);
    var jobs: map<nat, Job> := map[];
    assert jobs[1 := Job(0, 0, [MINE])] == map[1 := Job(0, 0, [MINE])];
  }

  lemma StaleSync(s1: System, received: Ledger)
    requires var l := Holding([MINE], [], map[]); s1.host == State(l, l, false) && s1.versions == ALL
    requires received == Holding([MINE, THEIRS], [], map[1 := 0])
    ensures Enabled(s1, STALE_RUN[1]) && Next(s1, STALE_RUN[1]) == s1.(host := s1.host.(stored := received))
  {
    var l := s1.host.stored;
    Alone(MINE, 1, 0, THEIRS.id);
    assert [Receive(THEIRS)][1..] == [] && [MINE] + [THEIRS] == [MINE, THEIRS];
    var stale: map<nat, int> := map[];
    assert stale[1 := 0] == map[1 := 0];
    assert Edited(l, Receive(THEIRS)) == Some(received);
    assert AllAllowed(received, [], ALL) && EditedAll(received, [], ALL) == received;
  }

  lemma StaleFinish(s2: System, job: Job)
    requires job == Job(0, 0, [MINE]) && s2.jobs == map[1 := job] && s2.versions == ALL && s2.offset == 0
    requires s2.host == State(Holding([MINE], [], map[]), Holding([MINE, THEIRS], [], map[1 := 0]), false)
    ensures Enabled(s2, STALE_RUN[2]) && !Settles(s2, STALE_RUN[2]) && Next(s2, STALE_RUN[2]).host.stored.stale == map[]
  {
    Alone(MINE, 1, 0, 0);
    Alone(THEIRS, 1, 0, 0);
    assert [MINE, THEIRS][1..] == [THEIRS];
    assert Relevant([MINE, THEIRS], 1, 0) == [MINE] + [THEIRS];
    assert |multiset([MINE])| == 1 && |multiset([MINE] + [THEIRS])| == 2;
    assert 0 in Days(0, 0);
  }
}
