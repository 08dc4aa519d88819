// The runtime that owns the alerts: one host working on the store in place, and its tick. See
// src/host/alert_host.rs and src/host/alert_runtime.rs.
module AlertRuntime {
  import opened Text
  import opened AlertEngine
  import opened AlertProtocol
  import opened AlertTakeover
  import opened Machine

  // MARK: The host at work

  class AlertStore {
    var stored: Stored
    var queue: seq<Command>

    constructor (stored: Stored, queue: seq<Command>)
      ensures this.stored == stored && this.queue == queue
    {
      this.stored, this.queue := stored, queue;
    }

    /** One transaction: the whole snapshot and the acknowledgements, or nothing. */
    method SaveAndAcknowledge(snapshot: Snapshot, ids: seq<nat>, writeOk: bool)
      modifies this
      ensures stored == if writeOk then Readable(snapshot) else old(stored)
      ensures queue == if writeOk then Acknowledged(old(queue), ids) else old(queue)
    {
      if writeOk {
        stored, queue := Readable(snapshot), Acknowledged(queue, ids);
      }
    }
  }

  predicate Knows(known: seq<Event>, event: Event) {
    exists e <- known :: e.id == event.id
  }

  /** The stored events that a reader has not seen, in stored order. */
  function News(known: seq<Event>, loaded: seq<Event>): seq<Event> {
    if loaded == [] then []
    else News(known, loaded[..|loaded| - 1]) + if Knows(known, loaded[|loaded| - 1]) then [] else [loaded[|loaded| - 1]]
  }

  class AlertHost {
    var engine: Snapshot
    var dirty: bool
    var pendingAcks: seq<nat>
    var loadError: bool

    ghost function State(): Host
      reads this
    {
      Host(engine, dirty, pendingAcks, loadError)
    }

    constructor (store: AlertStore, readOk: bool)
      ensures State() == LoadHost(store.stored, readOk)
    {
      loadError := !readOk || store.stored.Unreadable?;
      engine := if readOk && store.stored.Readable? then store.stored.snapshot else EMPTY;
      dirty := false;
      pendingAcks := [];
    }

    method UpdateHealth(health: Health)
      modifies this
      ensures State() == if old(engine).health != health then PerformedHost(old(State()), Beat(health))
        else old(State())
    {
      if engine.health != health {
        engine := Step(engine, Beat(health));
        dirty := true;
      }
    }

    /** Follows what another process saved, and returns the events it has not shown yet. */
    method ReloadFromStore(store: AlertStore, readOk: bool) returns (events: seq<Event>)
      modifies this
      ensures State() == ReloadHost(old(State()), store.stored, readOk)
      ensures events == if ReloadReplaces(old(State()), store.stored, readOk)
                        then News(old(engine).history, store.stored.snapshot.history) else []
    {
      events := [];
      if !readOk || store.stored.Unreadable? {
        loadError := true;
        return;
      }
      if store.stored.Absent? || store.stored.snapshot.revision == engine.revision {
        return;
      }
      var loaded := store.stored.snapshot;
      var known := set e <- engine.history :: e.id;
      for i := 0 to |loaded.history|
        invariant events == News(engine.history, loaded.history[..i])
      {
        assert loaded.history[..i + 1][..i] == loaded.history[..i];
        if loaded.history[i].id !in known {
          events := events + [loaded.history[i]];
        }
      }
      assert loaded.history[..|loaded.history|] == loaded.history;
      engine := loaded;
      loadError := false;
    }

    /** Applies every queued command that was not applied since the last save. */
    method DrainCommands(store: AlertStore, nowMs: int)
      modifies this
      ensures State() == DrainHost(old(State()), store.queue, nowMs)
    {
      if loadError {
        return;
      }
      for i := 0 to |store.queue|
        invariant !loadError
        invariant DrainHost(State(), store.queue[i..], nowMs) == DrainHost(old(State()), store.queue, nowMs)
      {
        var command := store.queue[i];
        ghost var before := State();
        assert store.queue[i..][0] == command && store.queue[i..][1..] == store.queue[i + 1..];
        if command.id in pendingAcks {
          continue;
        }
        engine := Apply(engine, command, nowMs);
        pendingAcks := pendingAcks + [command.id];
        dirty := true;
        assert State() == DrainOne(before, command, nowMs);
      }
    }

    method SaveIfDirty(store: AlertStore, writeOk: bool)
      modifies this, store
      ensures State() == SavedHost(old(State()), writeOk)
      ensures if Saves(old(State()), writeOk)
              then store.stored == Readable(old(engine))
                && store.queue == Acknowledged(old(store.queue), old(pendingAcks))
              else store.stored == old(store.stored) && store.queue == old(store.queue)
    {
      if !loadError && dirty {
        store.SaveAndAcknowledge(engine, pendingAcks, writeOk);
        if writeOk {
          pendingAcks := [];
          dirty := false;
        }
      }
    }
  }

  // MARK: The tick

  /** What judging the current quotes does to the alerts, once it has been told of the new ones. */
  datatype Judgement = Judgement(events: seq<Event>, judged: seq<PriceAlert>)

  function JudgedHost(h: Host, judge: seq<PriceAlert> -> Option<Judgement>): Host {
    match judge(h.engine.alerts)
    case Some(j) => PerformedHost(h, Evaluate(j.events, j.judged))
    case None => h
  }

  function BeatenHost(h: Host, health: Health): Host {
    if h.engine.health != health then PerformedHost(h, Beat(health)) else h
  }

  /** The host just before a tick saves. */
  function TickedHost(
    h: Host, queue: seq<Command>, judge: seq<PriceAlert> -> Option<Judgement>, health: Health, nowMs: int
  ): Host {
    BeatenHost(JudgedHost(DrainHost(h, queue, nowMs), judge), health)
  }

  const TICK_INTERVAL_MS: I64 := 1_000

  class AlertRuntimeRunner {
    const owner: Owner
    var lastTickMs: I64

    constructor (owner: Owner)
      ensures this.owner == owner && lastTickMs == I64_MIN / 2
    {
      this.owner := owner;
      lastTickMs := I64_MIN / 2;
    }

    /** At most once a second: apply the queue, judge the quotes, beat, and save all of it at once. */
    method Tick(
      host: AlertHost, store: AlertStore, judge: seq<PriceAlert> -> Option<Judgement>, nowMs: I64, writeOk: bool
    ) returns (ran: bool)
      modifies this, host, store
      ensures ran <==> SaturatingSub(nowMs, old(lastTickMs)) >= TICK_INTERVAL_MS
      ensures lastTickMs == if ran then nowMs else old(lastTickMs)
      ensures !ran ==>
        && host.State() == old(host.State())
        && store.stored == old(store.stored) && store.queue == old(store.queue)
      ensures ran ==>
        var ticked := TickedHost(old(host.State()), old(store.queue), judge, Health(owner, Some(nowMs)), nowMs);
        && host.State() == SavedHost(ticked, writeOk)
        && if Saves(ticked, writeOk)
           then store.stored == Readable(ticked.engine)
             && store.queue == Acknowledged(old(store.queue), ticked.pendingAcks)
           else store.stored == old(store.stored) && store.queue == old(store.queue)
    {
      hide DrainHost, Step, Acknowledged;
      if SaturatingSub(nowMs, lastTickMs) < TICK_INTERVAL_MS {
        return false;
      }
      lastTickMs := nowMs;
      host.DrainCommands(store, nowMs);
      var judgement := judge(host.engine.alerts);
      if judgement.Some? {
        host.engine := Step(host.engine, Evaluate(judgement.value.events, judgement.value.judged));
        if judgement.value.events != [] {
          host.dirty := true;
        }
      }
      host.UpdateHealth(Health(owner, Some(nowMs)));
      host.SaveIfDirty(store, writeOk);
      ran := true;
    }
  }

  /** The protocol steps one tick consists of. */
  function TickActions(
    p: nat, h: Host, queue: seq<Command>, judge: seq<PriceAlert> -> Option<Judgement>, health: Health, nowMs: int,
    writeOk: bool
  ): seq<Action> {
    var drained := DrainHost(h, queue, nowMs);
    var judgement := judge(drained.engine.alerts);
    [Drain(p, nowMs)]
    + (if judgement.Some? then [Judge(p, judgement.value.events, judgement.value.judged)] else [])
    + (if JudgedHost(drained, judge).engine.health != health then [Heartbeat(p, health)] else [])
    + [SaveTick(p, writeOk)]
  }

  /** The operations a tick performs on its snapshot. */
  function TickOps(
    h: Host, queue: seq<Command>, judge: seq<PriceAlert> -> Option<Judgement>, health: Health, nowMs: int
  ): seq<Op> {
    var drained := DrainHost(h, queue, nowMs);
    var judgement := judge(drained.engine.alerts);
    Drained(h, queue, nowMs)
    + (if judgement.Some? then [Evaluate(judgement.value.events, judgement.value.judged)] else [])
    + (if JudgedHost(drained, judge).engine.health != health then [Beat(health)] else [])
  }

  /** What a tick leaves: everything it did to the snapshot in memory, then one save of it. */
  function TickedSystem(
    sys: System, p: nat, judge: seq<PriceAlert> -> Option<Judgement>, health: Health, nowMs: int, writeOk: bool
  ): System
    requires p in sys.processes && sys.lease == Some(p)
  {
    var process := sys.processes[p];
    var ticked := TickedHost(process.host, sys.queue, judge, health, nowMs);
    var log := process.log + TickOps(process.host, sys.queue, judge, health, nowMs);
    Next(With(sys, p, Process(ticked, log)), SaveTick(p, writeOk))
  }

  /**
   * A tick is a run of the protocol, so everything its runs keep, ticks keep: started from what the
   * host and the store hold, the run ends in exactly what Tick leaves in them.
   */
  lemma TickIsARun(
    sys: System, p: nat, judge: seq<PriceAlert> -> Option<Judgement>, health: Health, nowMs: int, writeOk: bool
  )
    requires p in sys.processes && sys.lease == Some(p)
    ensures var actions := TickActions(p, sys.processes[p].host, sys.queue, judge, health, nowMs, writeOk);
      && IsRun(sys, actions) && After(sys, actions) == TickedSystem(sys, p, judge, health, nowMs, writeOk)
      && forall action <- actions :: Works(action)
  {
    hide DrainHost, Drained, Step, Acknowledged, IsRun, After, Enabled, Next, With, Performed, TickOps, JudgedHost,
      BeatenHost;
    var process := sys.processes[p];
    var drained := Process(DrainHost(process.host, sys.queue, nowMs),
      process.log + Drained(process.host, sys.queue, nowMs));
    var judgement := judge(drained.host.engine.alerts);
    var judged := if judgement.Some? then Performed(drained, Evaluate(judgement.value.events, judgement.value.judged))
      else drained;
    assert judged.host == JudgedHost(drained.host, judge) by {
      PerformedTogether(drained, judge, health);
    }
    var beats := judged.host.engine.health != health;
    var beaten := if beats then Performed(judged, Beat(health)) else judged;
    assert beaten == Process(TickedHost(process.host, sys.queue, judge, health, nowMs),
                             process.log + TickOps(process.host, sys.queue, judge, health, nowMs)) by {
      PerformedTogether(drained, judge, health);
      OpsTogether(process, sys.queue, judge, health, nowMs);
    }
    AsItIs(sys, p);
    DrainOf(sys, p, process, nowMs);
    var b := if judgement.Some? then [Judge(p, judgement.value.events, judgement.value.judged)] else [];
    if judgement.Some? {
      WorkOf(sys, p, drained, b[0], Evaluate(judgement.value.events, judgement.value.judged));
    } else {
      NoSteps(With(sys, p, drained));
    }
    var c := if beats then [Heartbeat(p, health)] else [];
    if beats {
      WorkOf(sys, p, judged, c[0], Beat(health));
    } else {
      NoSteps(With(sys, p, judged));
    }
    OwnerMaySave(sys, p, beaten, writeOk);
    JustOne(With(sys, p, beaten), SaveTick(p, writeOk));
    FourJoin(sys, [Drain(p, nowMs)], b, c, [SaveTick(p, writeOk)]);
  }

  lemma FourJoin(sys: System, a: seq<Action>, b: seq<Action>, c: seq<Action>, d: seq<Action>)
    requires IsRun(sys, a) && IsRun(After(sys, a), b) && IsRun(After(After(sys, a), b), c)
    requires IsRun(After(After(After(sys, a), b), c), d)
    ensures IsRun(sys, a + b + c + d) && After(sys, a + b + c + d) == After(After(After(After(sys, a), b), c), d)
  {
    hide IsRun, After;
    RunsJoin(sys, a, b);
    RunsJoin(sys, a + b, c);
    RunsJoin(sys, a + b + c, d);
  }

  lemma AsItIs(sys: System, p: nat)
    requires p in sys.processes
    ensures With(sys, p, sys.processes[p]) == sys
  {
    assert sys.processes[p := sys.processes[p]] == sys.processes;
  }

  /** A process's snapshot and its log go through a tick together. */
  lemma PerformedTogether(drained: Process, judge: seq<PriceAlert> -> Option<Judgement>, health: Health)
    ensures var judgement := judge(drained.host.engine.alerts);
      var ops := if judgement.Some? then [Evaluate(judgement.value.events, judgement.value.judged)] else [];
      var judged := if judgement.Some? then Performed(drained, ops[0]) else drained;
      var beaten := if judged.host.engine.health != health then Performed(judged, Beat(health)) else judged;
      && judged == Process(JudgedHost(drained.host, judge), drained.log + ops)
      && beaten == Process(BeatenHost(judged.host, health),
        judged.log + if judged.host.engine.health != health then [Beat(health)] else [])
  {
    hide Step;
  }

  lemma OpsTogether(
    process: Process, queue: seq<Command>, judge: seq<PriceAlert> -> Option<Judgement>, health: Health, nowMs: int
  )
    ensures var drained := DrainHost(process.host, queue, nowMs);
      var judgement := judge(drained.engine.alerts);
      var evaluated := if judgement.Some? then [Evaluate(judgement.value.events, judgement.value.judged)] else [];
      var beats := if JudgedHost(drained, judge).engine.health != health then [Beat(health)] else [];
      process.log + Drained(process.host, queue, nowMs) + evaluated + beats == process.log
        + TickOps(process.host, queue, judge, health, nowMs)
  {
    hide DrainHost, Drained, JudgedHost;
  }

  function With(sys: System, p: nat, process: Process): System {
    sys.(processes := sys.processes[p := process])
  }

  lemma OwnerMaySave(sys: System, p: nat, process: Process, writeOk: bool)
    requires sys.lease == Some(p)
    ensures Enabled(With(sys, p, process), SaveTick(p, writeOk))
  {
  }

  lemma DrainOf(sys: System, p: nat, process: Process, nowMs: int)
    requires sys.lease == Some(p)
    ensures var s, drained := With(sys, p, process),
      Process(DrainHost(process.host, sys.queue, nowMs), process.log + Drained(process.host, sys.queue, nowMs));
      IsRun(s, [Drain(p, nowMs)]) && After(s, [Drain(p, nowMs)]) == With(sys, p, drained)
  {
    hide DrainHost, Drained;
    JustOne(With(sys, p, process), Drain(p, nowMs));
  }

  lemma WorkOf(sys: System, p: nat, process: Process, action: Action, op: Op)
    requires sys.lease == Some(p)
    requires (op.Evaluate? && action == Judge(p, op.events, op.judged))
      || (op.Beat? && action == Heartbeat(p, op.health))
    ensures IsRun(With(sys, p, process), [action])
      && After(With(sys, p, process), [action]) == With(sys, p, Performed(process, op))
  {
    hide Step;
    JustOne(With(sys, p, process), action);
  }

  /** What an owner does in a tick. */
  predicate Works(action: Action) {
    action.Drain? || action.Judge? || action.Heartbeat? || action.SaveTick?
  }

  /** The times at which a tick runs, given the times at which it is called. */
  function TickTimes(last: I64, calls: seq<I64>): seq<I64>
    decreases calls
  {
    if calls == [] then []
    else if SaturatingSub(calls[0], last) < TICK_INTERVAL_MS then TickTimes(last, calls[1..])
    else [calls[0]] + TickTimes(calls[0], calls[1..])
  }

  predicate NeverBack(last: I64, calls: seq<I64>)
    decreases calls
  {
    calls == [] || (calls[0] >= last && NeverBack(calls[0], calls[1..]))
  }

  predicate Spaced(times: seq<I64>) {
    forall i :: 0 < i < |times| ==> times[i] - times[i - 1] >= TICK_INTERVAL_MS
  }

  lemma TickStep(last: I64, calls: seq<I64>)
    requires calls != []
    ensures var ran := SaturatingSub(calls[0], last) >= TICK_INTERVAL_MS;
      var from := if ran then calls[0] else last;
      && [last] + TickTimes(last, calls) == (if ran then [last] else []) + ([from] + TickTimes(from, calls[1..]))
      && (ran ==> from - last >= TICK_INTERVAL_MS)
      && (NeverBack(last, calls) ==> NeverBack(from, calls[1..]) && from <= calls[0] < from + TICK_INTERVAL_MS)
  {
    if NeverBack(last, calls) {
      assert NeverBack(calls[0], calls[1..]);
    }
  }

  /** Ticks are at least a second apart. */
  lemma {:induction false} TicksAreSpaced(last: I64, calls: seq<I64>)
    ensures Spaced([last] + TickTimes(last, calls))
    decreases calls
  {
    if calls != [] {
      var from := if SaturatingSub(calls[0], last) >= TICK_INTERVAL_MS then calls[0] else last;
      TicksAreSpaced(from, calls[1..]);
      TickStep(last, calls);
    }
  }

  /** While the clock does not go back, no call comes a whole second after the latest tick before it. */
  lemma {:induction false} NobodyWaitsASecond(last: I64, calls: seq<I64>, k: nat) returns (t: I64)
    requires NeverBack(last, calls) && k < |calls|
    ensures t in [last] + TickTimes(last, calls) && t <= calls[k] < t + TICK_INTERVAL_MS
    decreases calls
  {
    var from := if SaturatingSub(calls[0], last) >= TICK_INTERVAL_MS then calls[0] else last;
    TickStep(last, calls);
    var rest := [from] + TickTimes(from, calls[1..]);
    if k == 0 {
      t := from;
      assert rest[0] == t;
    } else {
      t := NobodyWaitsASecond(from, calls[1..], k - 1);
    }
    assert t in rest;
  }

  // MARK: Following shows each event once

  predicate OneIdEach(history: seq<Event>) {
    forall i, j :: 0 <= i < j < |history| ==> history[i].id != history[j].id
  }

  /** A store that is only ever added to, read at several moments; one revision means one history. */
  predicate Growing(snapshots: seq<Snapshot>) {
    forall i :: 0 <= i < |snapshots| ==>
      && OneIdEach(snapshots[i].history)
      && (i > 0 ==> snapshots[i - 1].history <= snapshots[i].history
                    && (snapshots[i - 1].revision == snapshots[i].revision ==>
                      snapshots[i - 1].history == snapshots[i].history))
  }

  /** Everything a follower is shown, reading the snapshots one after another. */
  function Shown(snapshots: seq<Snapshot>): seq<Event> {
    if |snapshots| < 2 then []
    else
      var n := |snapshots|;
      Shown(snapshots[..n - 1])
      + if snapshots[n - 2].revision == snapshots[n - 1].revision then []
        else News(snapshots[n - 2].history, snapshots[n - 1].history)
  }

  lemma {:induction false} NewsIsTheRest(known: seq<Event>, loaded: seq<Event>)
    requires known <= loaded && OneIdEach(loaded)
    ensures News(known, loaded) == loaded[|known|..]
  {
    var n := |loaded| - 1;
    if known == loaded {
      NothingNew(known, loaded);
    } else {
      NewsIsTheRest(known, loaded[..n]);
      assert loaded[|known|..] == loaded[..n][|known|..] + [loaded[n]];
    }
  }

  lemma {:induction false} NothingNew(known: seq<Event>, loaded: seq<Event>)
    requires forall e <- loaded :: Knows(known, e)
    ensures News(known, loaded) == []
  {
    if loaded != [] {
      NothingNew(known, loaded[..|loaded| - 1]);
    }
  }

  lemma GrewAtLast(snapshots: seq<Snapshot>)
    requires |snapshots| > 1 && Growing(snapshots)
    ensures var before, last := snapshots[|snapshots| - 2], snapshots[|snapshots| - 1];
      && Growing(snapshots[..|snapshots| - 1]) && before.history <= last.history && OneIdEach(last.history)
      && (before.revision == last.revision ==> before.history == last.history)
  {
  }

  /** However often it looks, a follower is shown every later event once, in the order they fired. */
  lemma {:induction false} EventsAreShownOnce(snapshots: seq<Snapshot>)
    requires snapshots != [] && Growing(snapshots)
    ensures snapshots[0].history <= snapshots[|snapshots| - 1].history
    ensures Shown(snapshots) == snapshots[|snapshots| - 1].history[|snapshots[0].history|..]
  {
    hide News, OneIdEach, Growing;
    var n := |snapshots|;
    if n > 1 {
      GrewAtLast(snapshots);
      EventsAreShownOnce(snapshots[..n - 1]);
      var first, before, last := snapshots[0].history, snapshots[n - 2].history, snapshots[n - 1].history;
      assert snapshots[..n - 1][n - 2] == snapshots[n - 2];
      NewsIsTheRest(before, last);
      assert last[|first|..] == before[|first|..] + last[|before|..];
    }
  }
}
