// The alert queue, the stored snapshot and the processes that own it in turn: the host of
// src/host/alert_host.rs as a value, and every interleaving of several of them.
module AlertProtocol {
  import opened Text
  import opened AlertEngine

  // MARK: The store and one host

  datatype Stored = Absent | Readable(snapshot: Snapshot) | Unreadable

  datatype Host = Host(engine: Snapshot, dirty: bool, pendingAcks: seq<nat>, loadError: bool)

  function Ids(queue: seq<Command>): (ids: seq<nat>)
    ensures |ids| == |queue| && forall i :: 0 <= i < |queue| ==> ids[i] == queue[i].id
  {
    seq(|queue|, i requires 0 <= i < |queue| => queue[i].id)
  }

  /** A command joins the queue by its time, after those of the same time; an id is queued once. */
  function Enqueued(queue: seq<Command>, command: Command): seq<Command> {
    if command.id in Ids(queue) then queue
    else if queue != [] && queue[|queue| - 1].createdAt > command.createdAt
    then Enqueued(queue[..|queue| - 1], command) + [queue[|queue| - 1]]
    else queue + [command]
  }

  function Acknowledged(queue: seq<Command>, ids: seq<nat>): (rest: seq<Command>) {
    if queue == [] then []
    else (if queue[0].id in ids then [] else [queue[0]]) + Acknowledged(queue[1..], ids)
  }

  function LoadHost(stored: Stored, readOk: bool): Host {
    if !readOk || stored.Unreadable? then Host(EMPTY, false, [], true)
    else Host(if stored.Readable? then stored.snapshot else EMPTY, false, [], false)
  }

  function DrainHost(h: Host, queue: seq<Command>, nowMs: int): Host
    decreases queue
  {
    if h.loadError || queue == [] then h
    else DrainHost(DrainOne(h, queue[0], nowMs), queue[1..], nowMs)
  }

  function DrainOne(h: Host, command: Command, nowMs: int): Host {
    if command.id in h.pendingAcks then h
    else h.(engine := Apply(h.engine, command, nowMs), pendingAcks := h.pendingAcks + [command.id], dirty := true)
  }

  /** Whether reading the store replaces what the host holds. */
  predicate ReloadReplaces(h: Host, stored: Stored, readOk: bool) {
    readOk && stored.Readable? && stored.snapshot.revision != h.engine.revision
  }

  function ReloadHost(h: Host, stored: Stored, readOk: bool): Host {
    if !readOk || stored.Unreadable? then h.(loadError := true)
    else if ReloadReplaces(h, stored, readOk) then h.(engine := stored.snapshot, loadError := false)
    else h
  }

  predicate Saves(h: Host, writeOk: bool) {
    !h.loadError && h.dirty && writeOk
  }

  function SavedHost(h: Host, writeOk: bool): Host {
    if Saves(h, writeOk) then h.(dirty := false, pendingAcks := []) else h
  }

  // MARK: Several processes

  /** A process and the operations its snapshot is the outcome of. */
  datatype Process = Process(host: Host, log: seq<Op>)

  /**
   * `storedLog` is what the stored snapshot is the outcome of, `issued` every command id ever
   * queued, `lease` the process that owns the runtime.
   */
  datatype System = System(
    stored: Stored, storedLog: seq<Op>, queue: seq<Command>, issued: set<nat>,
    lease: Option<nat>, processes: map<nat, Process>)

  datatype Action =
    | Enqueue(command: Command)
    | Start(p: nat, readOk: bool)
    | StartAsOwner(p: nat, readOk: bool)
    | Acquire(p: nat)
    | Release(p: nat)
    | Crash(p: nat)
    | Reload(p: nat, readOk: bool)
    | Drain(p: nat, nowMs: int)
    | Judge(p: nat, events: seq<Event>, judged: seq<PriceAlert>)
    | Heartbeat(p: nat, health: Health)
    | SaveTick(p: nat, writeOk: bool)

  /** Only the owner runs ticks, and only who is not the owner follows the store. */
  predicate Enabled(sys: System, action: Action) {
    match action
    case Enqueue(command) => command.id in sys.issued ==> command.id in Ids(sys.queue)
    case Start(p, _) => p !in sys.processes
    case StartAsOwner(p, _) => p !in sys.processes && sys.lease.None?
    case Acquire(p) => p in sys.processes && sys.lease.None?
    case Release(p) => sys.lease == Some(p)
    case Crash(p) => p in sys.processes
    case Reload(p, _) => p in sys.processes && sys.lease != Some(p)
    case Drain(p, _) => p in sys.processes && sys.lease == Some(p)
    case Judge(p, _, _) => p in sys.processes && sys.lease == Some(p)
    case Heartbeat(p, _) => p in sys.processes && sys.lease == Some(p)
    case SaveTick(p, _) => p in sys.processes && sys.lease == Some(p)
  }

  /** The commands a drain applies, as operations. */
  function Drained(h: Host, queue: seq<Command>, nowMs: int): seq<Op>
    decreases queue
  {
    if h.loadError || queue == [] then []
    else
      (if queue[0].id in h.pendingAcks then [] else [Request(queue[0], nowMs)])
      + Drained(DrainOne(h, queue[0], nowMs), queue[1..], nowMs)
  }

  function Started(sys: System, readOk: bool): Process {
    Process(LoadHost(sys.stored, readOk), if readOk && sys.stored.Readable? then sys.storedLog else [])
  }

  /** Judging quotes without an event leaves the host as clean as it was; a heartbeat never does. */
  function Performed(process: Process, op: Op): Process {
    Process(PerformedHost(process.host, op), process.log + [op])
  }

  function PerformedHost(h: Host, op: Op): Host {
    h.(engine := Step(h.engine, op), dirty := h.dirty || !op.Evaluate? || op.events != [])
  }

  function Next(sys: System, action: Action): System
    requires Enabled(sys, action)
  {
    match action
    case Enqueue(command) => sys.(queue := Enqueued(sys.queue, command), issued := sys.issued + {command.id})
    case Start(p, readOk) => sys.(processes := sys.processes[p := Started(sys, readOk)])
    case StartAsOwner(p, readOk) => sys.(processes := sys.processes[p := Started(sys, readOk)], lease := Some(p))
    case Acquire(p) => sys.(lease := Some(p))
    case Release(p) => sys.(lease := None)
    case Crash(p) => sys.(processes := sys.processes - {p}, lease := if sys.lease == Some(p) then None else sys.lease)
    case Reload(p, readOk) =>
      var process := sys.processes[p];
      var log := if ReloadReplaces(process.host, sys.stored, readOk) then sys.storedLog else process.log;
      sys.(processes := sys.processes[p := Process(ReloadHost(process.host, sys.stored, readOk), log)])
    case Drain(p, nowMs) =>
      var process := sys.processes[p];
      sys.(processes := sys.processes[p :=
        Process(DrainHost(process.host, sys.queue, nowMs), process.log + Drained(process.host, sys.queue, nowMs))])
    case Judge(p, events, judged) =>
      sys.(processes := sys.processes[p := Performed(sys.processes[p], Evaluate(events, judged))])
    case Heartbeat(p, health) => sys.(processes := sys.processes[p := Performed(sys.processes[p], Beat(health))])
    case SaveTick(p, writeOk) =>
      var process := sys.processes[p];
      var after := sys.(processes := sys.processes[p := process.(host := SavedHost(process.host, writeOk))]);
      if !Saves(process.host, writeOk) then after
      else after.(stored := Readable(process.host.engine), storedLog := process.log,
                  queue := Acknowledged(sys.queue, process.host.pendingAcks))
  }

  // MARK: What every state keeps

  /** Each issued command is queued once and has no stored effect, or is stored once and not queued. */
  predicate ExactlyOnce(sys: System) {
    && NoRepeats(Ids(sys.queue)) && NoRepeats(CommandIds(sys.storedLog))
    && (forall id <- sys.issued :: (id in Ids(sys.queue)) != (id in CommandIds(sys.storedLog)))
    && (forall id <- Ids(sys.queue) :: id in sys.issued)
    && (forall id <- CommandIds(sys.storedLog) :: id in sys.issued)
  }

  predicate StoredMatchesLog(sys: System) {
    match sys.stored
    case Readable(snapshot) => snapshot == Replay(EMPTY, sys.storedLog)
    case _ => sys.storedLog == []
  }

  /** What a process keeps whether or not it owns the runtime, and however far behind it is. */
  predicate ProcessSound(sys: System, process: Process) {
    && process.host.engine == Replay(EMPTY, process.log)
    && NoRepeats(CommandIds(process.log))
    && (forall id <- CommandIds(process.log) :: id in sys.issued)
    && (forall id <- process.host.pendingAcks :: id in sys.issued)
    && (forall id <- CommandIds(process.log) :: id in Ids(sys.queue) ==> id in process.host.pendingAcks)
    && (sys.stored.Unreadable? ==> process.host.loadError)
  }

  /**
   * The takeover rule: everything stored is in the process's own snapshot, and so is every queued
   * command it believes it has applied. A process that could not read the store writes nothing.
   */
  predicate Follows(sys: System, process: Process) {
    || process.host.loadError
    || (&& sys.storedLog <= process.log
        && forall id <- process.host.pendingAcks :: id in Ids(sys.queue) ==> id in CommandIds(process.log))
  }

  predicate Sound(sys: System) {
    && ExactlyOnce(sys) && StoredMatchesLog(sys)
    && (forall p <- sys.processes :: ProcessSound(sys, sys.processes[p]))
    && (sys.lease.Some? && sys.lease.value in sys.processes ==> Follows(sys, sys.processes[sys.lease.value]))
  }

  /** The one thing the original does not check: that a process that takes the lease follows. */
  predicate TakesOverByTheRule(sys: System, action: Action) {
    action.Acquire? && action.p in sys.processes ==> Follows(sys, sys.processes[action.p])
  }

  // MARK: Logs and queues

  lemma {:induction false} LogsJoin(s: Snapshot, a: seq<Op>, b: seq<Op>)
    ensures Replay(s, a + b) == Replay(Replay(s, a), b)
    ensures CommandIds(a + b) == CommandIds(a) + CommandIds(b)
  {
    hide Step;
    if b == [] {
      assert a + b == a;
    } else {
      var n := |b| - 1;
      LogsJoin(s, a, b[..n]);
      assert (a + b)[..|a| + n] == a + b[..n] && (a + b)[|a| + n] == b[n];
    }
  }

  lemma {:induction false} AcknowledgedRemoves(queue: seq<Command>, ids: seq<nat>)
    requires NoRepeats(Ids(queue))
    ensures NoRepeats(Ids(Acknowledged(queue, ids)))
    ensures forall id :: id in Ids(Acknowledged(queue, ids)) <==> id in Ids(queue) && id !in ids
  {
    hide NoRepeats, Ids;
    if queue != [] {
      HeadIsNew(queue);
      AcknowledgedRemoves(queue[1..], ids);
      var rest := Acknowledged(queue[1..], ids);
      if queue[0].id in ids {
        assert Acknowledged(queue, ids) == rest;
      } else {
        PrependNew(queue[0], rest);
      }
    }
  }

  lemma PrependNew(command: Command, rest: seq<Command>)
    ensures Ids([command] + rest) == [command.id] + Ids(rest)
    ensures NoRepeats(Ids(rest)) && command.id !in Ids(rest) ==> NoRepeats(Ids([command] + rest))
  {
  }

  lemma AppendNew(items: seq<nat>, item: nat)
    requires NoRepeats(items) && item !in items
    ensures NoRepeats(items + [item])
  {
  }

  lemma HeadIsNew(queue: seq<Command>)
    requires queue != [] && NoRepeats(Ids(queue))
    ensures queue[0].id !in Ids(queue[1..]) && NoRepeats(Ids(queue[1..]))
    ensures Ids(queue) == [queue[0].id] + Ids(queue[1..])
  {
    forall i, j | 0 <= i < j < |queue| - 1 ensures Ids(queue[1..])[i] != Ids(queue[1..])[j] {
      assert Ids(queue)[i + 1] != Ids(queue)[j + 1];
    }
    forall i | 0 <= i < |queue| - 1 ensures Ids(queue[1..])[i] != queue[0].id {
      assert Ids(queue)[0] != Ids(queue)[i + 1];
    }
  }

  lemma {:induction false} EnqueuedAdds(queue: seq<Command>, command: Command)
    requires NoRepeats(Ids(queue))
    ensures NoRepeats(Ids(Enqueued(queue, command)))
    ensures forall id :: id in Ids(Enqueued(queue, command)) <==> id in Ids(queue) || id == command.id
  {
    if command.id !in Ids(queue) {
      if queue != [] && queue[|queue| - 1].createdAt > command.createdAt {
        var n := |queue| - 1;
        assert Ids(queue) == Ids(queue[..n]) + [queue[n].id];
        forall i, j | 0 <= i < j < n ensures Ids(queue[..n])[i] != Ids(queue[..n])[j] {
          assert Ids(queue)[i] != Ids(queue)[j];
        }
        forall i | 0 <= i < n ensures Ids(queue[..n])[i] != queue[n].id {
          assert Ids(queue)[i] != Ids(queue)[n];
        }
        EnqueuedAdds(queue[..n], command);
        var front := Enqueued(queue[..n], command);
        assert Ids(front + [queue[n]]) == Ids(front) + [queue[n].id];
        AppendNew(Ids(front), queue[n].id);
      } else {
        assert Ids(queue + [command]) == Ids(queue) + [command.id];
        AppendNew(Ids(queue), command.id);
      }
    }
  }

  /** The queued commands a host has not applied, in queue order. */
  function Unapplied(queue: seq<Command>, acks: seq<nat>): seq<nat> {
    if queue == [] then []
    else (if queue[0].id in acks then [] else [queue[0].id]) + Unapplied(queue[1..], acks)
  }

  lemma {:induction false} UnappliedIgnores(queue: seq<Command>, acks: seq<nat>, id: nat)
    requires id !in Ids(queue)
    ensures Unapplied(queue, acks + [id]) == Unapplied(queue, acks)
  {
    if queue != [] {
      assert Ids(queue)[0] == queue[0].id != id;
      forall i | 0 <= i < |queue| - 1 ensures Ids(queue[1..])[i] != id {
        assert Ids(queue)[i + 1] != id;
      }
      UnappliedIgnores(queue[1..], acks, id);
    }
  }

  lemma {:induction false} UnappliedIds(queue: seq<Command>, acks: seq<nat>)
    requires NoRepeats(Ids(queue))
    ensures NoRepeats(Unapplied(queue, acks))
    ensures forall id :: id in Unapplied(queue, acks) <==> id in Ids(queue) && id !in acks
  {
    if queue != [] {
      HeadIsNew(queue);
      UnappliedIds(queue[1..], acks);
    }
  }

  /** A drain applies the commands the host has not applied, once each and in queue order. */
  lemma {:induction false} DrainAppliesInOrder(h: Host, queue: seq<Command>, nowMs: int)
    requires !h.loadError && NoRepeats(Ids(queue))
    ensures var after, ops := DrainHost(h, queue, nowMs), Drained(h, queue, nowMs);
      && CommandIds(ops) == Unapplied(queue, h.pendingAcks)
      && after.engine == Replay(h.engine, ops)
      && after.pendingAcks == h.pendingAcks + CommandIds(ops)
      && after.loadError == h.loadError
    decreases queue
  {
    hide Apply, Ids, NoRepeats;
    if queue == [] {
      assert Drained(h, queue, nowMs) == [] && h.pendingAcks + [] == h.pendingAcks;
    } else {
      var one := DrainOne(h, queue[0], nowMs);
      HeadIsNew(queue);
      DrainAppliesInOrder(one, queue[1..], nowMs);
      var rest := Drained(one, queue[1..], nowMs);
      if queue[0].id in h.pendingAcks {
        assert [] + rest == rest;
      } else {
        FirstApplied(h, queue, nowMs, rest);
      }
    }
  }

  lemma FirstApplied(h: Host, queue: seq<Command>, nowMs: int, rest: seq<Op>)
    requires queue != [] && queue[0].id !in h.pendingAcks && queue[0].id !in Ids(queue[1..])
    requires CommandIds(rest) == Unapplied(queue[1..], h.pendingAcks + [queue[0].id])
    ensures var ops := [Request(queue[0], nowMs)] + rest;
      && CommandIds(ops) == Unapplied(queue, h.pendingAcks) == [queue[0].id] + CommandIds(rest)
      && Replay(h.engine, ops) == Replay(DrainOne(h, queue[0], nowMs).engine, rest)
  {
    hide Apply;
    var op := Request(queue[0], nowMs);
    LogsJoin(h.engine, [op], rest);
    assert [op][..0] == [];
    assert Replay(h.engine, [op]) == Step(h.engine, op) && CommandIds([op]) == [queue[0].id];
    UnappliedIgnores(queue[1..], h.pendingAcks, queue[0].id);
  }

  // MARK: Every step

  /** A process's own log gains commands it had not applied, and its snapshot follows its log. */
  lemma DrainKeepsProcess(sys: System, process: Process, nowMs: int)
    requires ExactlyOnce(sys) && ProcessSound(sys, process)
    ensures var after := Process(DrainHost(process.host, sys.queue, nowMs),
      process.log + Drained(process.host, sys.queue, nowMs));
      ProcessSound(sys, after) && (Follows(sys, process) ==> Follows(sys, after))
  {
    hide Apply;
    if !process.host.loadError {
      var ops := Drained(process.host, sys.queue, nowMs);
      DrainAppliesInOrder(process.host, sys.queue, nowMs);
      UnappliedIds(sys.queue, process.host.pendingAcks);
      LogsJoin(EMPTY, process.log, ops);
      JoinNew(CommandIds(process.log), CommandIds(ops));
    } else {
      assert process.log + [] == process.log;
    }
  }

  lemma JoinNew(a: seq<nat>, b: seq<nat>)
    requires NoRepeats(a) && NoRepeats(b) && forall x <- b :: x !in a
    ensures NoRepeats(a + b)
  {
    forall i, j | 0 <= i < j < |a + b| ensures (a + b)[i] != (a + b)[j] {
      if i < |a| <= j {
        assert b[j - |a|] in b;
      }
    }
  }

  lemma PerformKeepsProcess(sys: System, process: Process, op: Op)
    requires ProcessSound(sys, process) && !op.Request?
    ensures ProcessSound(sys, Performed(process, op))
      && (Follows(sys, process) ==> Follows(sys, Performed(process, op)))
  {
    LogsJoin(EMPTY, process.log, [op]);
    assert [op][..0] == [];
    assert CommandIds([op]) == [] && Replay(process.host.engine, [op]) == Step(process.host.engine, op);
  }

  lemma PrefixHasItsCommands(a: seq<Op>, b: seq<Op>)
    requires a <= b
    ensures CommandIds(a) <= CommandIds(b)
  {
    LogsJoin(EMPTY, a, b[|a|..]);
    assert a + b[|a|..] == b;
  }

  /** What a save changes for everybody: the stored log is the saver's, and its commands leave the queue. */
  lemma SaveKeepsExactlyOnce(sys: System, p: nat)
    requires Sound(sys) && sys.lease == Some(p) && p in sys.processes && Saves(sys.processes[p].host, true)
    ensures var after := Next(sys, SaveTick(p, true));
      && ExactlyOnce(after) && StoredMatchesLog(after) && sys.storedLog <= after.storedLog
      && (forall id <- Ids(after.queue) :: id in Ids(sys.queue))
      && (forall id <- Ids(sys.queue) :: id in sys.processes[p].host.pendingAcks <==> id !in Ids(after.queue))
  {
    var process := sys.processes[p];
    AcknowledgedRemoves(sys.queue, process.host.pendingAcks);
    PrefixHasItsCommands(sys.storedLog, process.log);
  }

  lemma EnqueueKeeps(sys: System, command: Command)
    requires Sound(sys) && Enabled(sys, Enqueue(command))
    ensures Sound(Next(sys, Enqueue(command)))
  {
    EnqueuedAdds(sys.queue, command);
  }

  lemma SaveKeeps(sys: System, p: nat, writeOk: bool)
    requires Sound(sys) && Enabled(sys, SaveTick(p, writeOk))
    ensures Sound(Next(sys, SaveTick(p, writeOk))) && sys.storedLog <= Next(sys, SaveTick(p, writeOk)).storedLog
  {
    hide ProcessSound, Follows, ExactlyOnce, StoredMatchesLog, Acknowledged;
    var process, after := sys.processes[p], Next(sys, SaveTick(p, writeOk));
    if Saves(process.host, writeOk) {
      SaveKeepsExactlyOnce(sys, p);
      assert ProcessSound(sys, process);
      SaverFollows(sys, process, after);
      forall q | q in sys.processes && q != p ensures ProcessSound(after, sys.processes[q]) {
        BystanderStaysSound(sys, sys.processes[q], after);
      }
    } else {
      assert after.processes == sys.processes;
    }
  }

  lemma BystanderStaysSound(sys: System, process: Process, after: System)
    requires ProcessSound(sys, process) && after.issued == sys.issued && !after.stored.Unreadable?
    requires forall id <- Ids(after.queue) :: id in Ids(sys.queue)
    ensures ProcessSound(after, process)
  {
  }

  lemma SaverFollows(sys: System, process: Process, after: System)
    requires ProcessSound(sys, process) && after.storedLog == process.log && after.issued == sys.issued
      && !after.stored.Unreadable?
    requires forall id <- Ids(after.queue) :: id in Ids(sys.queue) && id !in process.host.pendingAcks
    ensures var saved := process.(host := process.host.(dirty := false, pendingAcks := []));
      ProcessSound(after, saved) && Follows(after, saved)
  {
  }

  lemma OwnTickKeeps(sys: System, action: Action)
    requires Sound(sys) && Enabled(sys, action) && (action.Drain? || action.Judge? || action.Heartbeat?)
    ensures Sound(Next(sys, action))
  {
    hide ProcessSound, Follows, ExactlyOnce;
    var process := sys.processes[action.p];
    match action {
      case Drain(p, nowMs) => DrainKeepsProcess(sys, process, nowMs);
      case Judge(p, events, judged) => PerformKeepsProcess(sys, process, Evaluate(events, judged));
      case Heartbeat(p, health) => PerformKeepsProcess(sys, process, Beat(health));
    }
    var after := Next(sys, action);
    assert after == sys.(processes := sys.processes[action.p := after.processes[action.p]], lease := sys.lease);
    ProcessReplaced(sys, action.p, after.processes[action.p], sys.lease);
  }

  /** The judgement of one process does not depend on the others, or on who holds the lease. */
  lemma SoundnessIgnoresProcesses(sys: System, after: System)
    requires after.(processes := sys.processes, lease := sys.lease) == sys
    ensures ExactlyOnce(sys) == ExactlyOnce(after) && StoredMatchesLog(sys) == StoredMatchesLog(after)
    ensures forall process :: ProcessSound(sys, process) == ProcessSound(after, process)
    ensures forall process :: Follows(sys, process) == Follows(after, process)
  {
  }

  lemma ProcessReplaced(sys: System, p: nat, process: Process, lease: Option<nat>)
    requires Sound(sys) && ProcessSound(sys, process)
    requires lease == sys.lease || lease == Some(p)
    requires lease == Some(p) ==> Follows(sys, process)
    ensures Sound(sys.(processes := sys.processes[p := process], lease := lease))
  {
    hide ProcessSound, Follows, ExactlyOnce;
    var after := sys.(processes := sys.processes[p := process], lease := lease);
    SoundnessIgnoresProcesses(sys, after);
    forall q | q in after.processes ensures ProcessSound(after, after.processes[q]) {
      assert q != p ==> ProcessSound(sys, sys.processes[q]);
    }
  }

  lemma StartKeeps(sys: System, action: Action)
    requires Sound(sys) && Enabled(sys, action) && (action.Start? || action.StartAsOwner? || action.Reload?)
    ensures Sound(Next(sys, action))
  {
    var after := Next(sys, action);
    var process := after.processes[action.p];
    assert ProcessSound(sys, process) by {
      assert action.Reload? ==> ProcessSound(sys, sys.processes[action.p]);
    }
    assert action.StartAsOwner? ==> Follows(sys, process);
    hide *;
    StartIsAReplacement(sys, action);
    ProcessReplaced(sys, action.p, process, after.lease);
  }

  lemma StartIsAReplacement(sys: System, action: Action)
    requires Enabled(sys, action) && (action.Start? || action.StartAsOwner? || action.Reload?)
    ensures var after := Next(sys, action);
      && action.p in after.processes
      && after == sys.(processes := sys.processes[action.p := after.processes[action.p]], lease := after.lease)
      && (after.lease == if action.StartAsOwner? then Some(action.p) else sys.lease)
  {
  }

  lemma LeaseKeeps(sys: System, action: Action)
    requires Sound(sys) && Enabled(sys, action) && TakesOverByTheRule(sys, action)
    requires action.Acquire? || action.Release? || action.Crash?
    ensures Sound(Next(sys, action))
  {
    hide ProcessSound, Follows, ExactlyOnce;
    SoundnessIgnoresProcesses(sys, Next(sys, action));
  }

  /**
   * One step of any process. If whoever takes the lease follows the store, every command stays
   * queued or stored, never both and never neither, and nothing that was stored is lost.
   */
  lemma StepKeepsEverything(sys: System, action: Action)
    requires Sound(sys) && Enabled(sys, action) && TakesOverByTheRule(sys, action)
    ensures Sound(Next(sys, action)) && sys.storedLog <= Next(sys, action).storedLog
    ensures sys.stored.Unreadable? ==> Next(sys, action).stored == sys.stored
  {
    match action
    case Enqueue(command) => EnqueueKeeps(sys, command);
    case SaveTick(p, writeOk) => SaveKeeps(sys, p, writeOk);
    case Drain(_, _) => OwnTickKeeps(sys, action);
    case Judge(_, _, _) => OwnTickKeeps(sys, action);
    case Heartbeat(_, _) => OwnTickKeeps(sys, action);
    case Start(_, _) => StartKeeps(sys, action);
    case StartAsOwner(_, _) => StartKeeps(sys, action);
    case Reload(_, _) => StartKeeps(sys, action);
    case _ => LeaseKeeps(sys, action);
  }
}
