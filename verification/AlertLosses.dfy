// Taking the lease over without following the store: exactly when a tick then loses something, and
// two runs of the GUI and the agent in which one does. See src/app.rs and src/host/alert_runtime.rs.
module AlertLosses {
  import opened Text
  import opened AlertEngine
  import opened AlertCrossing
  import opened AlertProtocol
  import opened AlertTakeover
  import opened AlertRuntime
  import Own = AlertOwnership

  // MARK: The first tick of a new owner

  type Judger = seq<PriceAlert> -> Option<Judgement>

  /** Taking the lease and running one whole tick. */
  function TakeoverTick(sys: System, p: nat, judge: Judger, health: Health, nowMs: int, writeOk: bool): seq<Action>
    requires p in sys.processes
  {
    [Acquire(p)] + TickActions(p, sys.processes[p].host, sys.queue, judge, health, nowMs, writeOk)
  }

  /** What the tick judges and beats is news: not in what is stored. */
  predicate IsNews(stored: seq<Op>, ops: seq<Op>) {
    forall op <- ops :: op in stored ==> op.Request?
  }

  lemma TakeoverRuns(sys: System, p: nat, judge: Judger, health: Health, nowMs: int, writeOk: bool)
    requires p in sys.processes && sys.lease.None?
    ensures var actions, owning := TakeoverTick(sys, p, judge, health, nowMs, writeOk), sys.(lease := Some(p));
      && IsRun(sys, actions) && After(sys, actions) == TickedSystem(owning, p, judge, health, nowMs, writeOk)
      && (TakesOversFollow(sys, actions) <==> Follows(sys, sys.processes[p]))
  {
    hide Follows, IsRun, After, TickActions, TickedSystem;
    var owning, actions := sys.(lease := Some(p)),
      TickActions(p, sys.processes[p].host, sys.queue, judge, health, nowMs, writeOk);
    TickIsARun(owning, p, judge, health, nowMs, writeOk);
    OneStep(sys, Acquire(p), actions);
    WorkTakesNothingOver(owning, actions);
  }

  lemma {:induction false} WorkTakesNothingOver(sys: System, actions: seq<Action>)
    requires IsRun(sys, actions) && forall action <- actions :: Works(action)
    ensures TakesOversFollow(sys, actions)
    decreases actions
  {
    hide Next, Enabled;
    if actions != [] {
      assert Works(actions[0]);
      OthersTakeNothingOver(sys, actions[0]);
      WorkTakesNothingOver(Next(sys, actions[0]), actions[1..]);
    }
  }

  /**
   * The takeover rule is exact. Whatever a process knows when it takes the lease, its first tick
   * keeps everything stored and every command exactly once if, and only if, the process followed
   * the store or the tick saves nothing.
   */
  lemma TakeoverIsSafeExactlyWhenFollowing(
    sys: System, p: nat, judge: Judger, health: Health, nowMs: int, writeOk: bool
  )
    requires Sound(sys) && p in sys.processes && sys.lease.None?
    requires IsNews(sys.storedLog, TickOps(sys.processes[p].host, sys.queue, judge, health, nowMs))
    ensures IsRun(sys, TakeoverTick(sys, p, judge, health, nowMs, writeOk))
    ensures var after := After(sys, TakeoverTick(sys, p, judge, health, nowMs, writeOk));
      var ticked := TickedHost(sys.processes[p].host, sys.queue, judge, health, nowMs);
      sys.storedLog <= after.storedLog && ExactlyOnce(after) <==>
        Follows(sys, sys.processes[p]) || !Saves(ticked, writeOk)
  {
    TakeoverRuns(sys, p, judge, health, nowMs, writeOk);
    if Follows(sys, sys.processes[p]) {
      RunsKeepEverything(sys, TakeoverTick(sys, p, judge, health, nowMs, writeOk));
    } else if Saves(TickedHost(sys.processes[p].host, sys.queue, judge, health, nowMs), writeOk) {
      LaggingTakeover(sys, p, judge, health, nowMs, writeOk);
    } else {
      UnsavedTickKeeps(sys, p, judge, health, nowMs, writeOk);
    }
  }

  lemma UnsavedTickKeeps(sys: System, p: nat, judge: Judger, health: Health, nowMs: int, writeOk: bool)
    requires Sound(sys) && p in sys.processes
    requires !Saves(TickedHost(sys.processes[p].host, sys.queue, judge, health, nowMs), writeOk)
    ensures var after := TickedSystem(sys.(lease := Some(p)), p, judge, health, nowMs, writeOk);
      sys.storedLog <= after.storedLog && ExactlyOnce(after)
  {
    hide TickedHost, TickOps;
    var after := TickedSystem(sys.(lease := Some(p)), p, judge, health, nowMs, writeOk);
    assert after.(processes := sys.processes, lease := sys.lease) == sys;
    hide TickedSystem;
    SoundnessIgnoresProcesses(sys, after);
  }

  /** Judger and beating leave what waits to be acknowledged alone. */
  lemma TickAcknowledges(h: Host, queue: seq<Command>, judge: Judger, health: Health, nowMs: int)
    ensures var ticked, ops := TickedHost(h, queue, judge, health, nowMs), TickOps(h, queue, judge, health, nowMs);
      && ticked.pendingAcks == DrainHost(h, queue, nowMs).pendingAcks
      && ticked.loadError == DrainHost(h, queue, nowMs).loadError
      && Drained(h, queue, nowMs) <= ops && forall i :: |Drained(h, queue, nowMs)| <= i < |ops| ==> !ops[i].Request?
  {
    hide DrainHost, Drained, Step;
  }

  lemma {:induction false} OthersHaveNoIds(ops: seq<Op>)
    requires forall op <- ops :: !op.Request?
    ensures CommandIds(ops) == []
  {
    if ops != [] {
      OthersHaveNoIds(ops[..|ops| - 1]);
    }
  }

  lemma LaggingTakeover(sys: System, p: nat, judge: Judger, health: Health, nowMs: int, writeOk: bool)
    requires Sound(sys) && p in sys.processes && !Follows(sys, sys.processes[p])
    requires IsNews(sys.storedLog, TickOps(sys.processes[p].host, sys.queue, judge, health, nowMs))
    requires Saves(TickedHost(sys.processes[p].host, sys.queue, judge, health, nowMs), writeOk)
    ensures var after := TickedSystem(sys.(lease := Some(p)), p, judge, health, nowMs, writeOk);
      !(sys.storedLog <= after.storedLog && ExactlyOnce(after))
  {
    hide Apply, DrainHost, Drained, TickedHost, TickOps, Acknowledged, IsNews, NoRepeats;
    var process, after := sys.processes[p], TickedSystem(sys.(lease := Some(p)), p, judge, health, nowMs, writeOk);
    var ops := TickOps(process.host, sys.queue, judge, health, nowMs);
    assert ProcessSound(sys, process);
    assert after.storedLog == process.log + ops;
    if sys.storedLog <= process.log {
      var id := UnqueuedWithoutEffect(sys, process, judge, health, nowMs);
    } else if sys.storedLog <= after.storedLog {
      FirstOpIsNew(sys, process, judge, health, nowMs);
      LongerTakesTheFirst(sys.storedLog, process.log, ops);
      assert false;
    }
  }

  lemma LongerTakesTheFirst(stored: seq<Op>, log: seq<Op>, ops: seq<Op>)
    requires stored <= log + ops && !(stored <= log)
    ensures ops != [] && ops[0] in stored
  {
    assert stored[|log|] == ops[0];
  }

  /** A command the process believes it has applied leaves the queue, and its effect is nowhere. */
  lemma UnqueuedWithoutEffect(
    sys: System, process: Process, judge: Judger, health: Health, nowMs: int
  ) returns (id: nat)
    requires ExactlyOnce(sys) && ProcessSound(sys, process) && !Follows(sys, process) && sys.storedLog <= process.log
    ensures var ticked, ops := TickedHost(process.host, sys.queue, judge, health, nowMs),
      TickOps(process.host, sys.queue, judge, health, nowMs);
      id in sys.issued && id !in Ids(Acknowledged(sys.queue, ticked.pendingAcks))
        && id !in CommandIds(process.log + ops)
  {
    hide TickedHost, TickOps, Acknowledged, NoRepeats, Ids, CommandIds, Unapplied, Replay;
    var h, queue := process.host, sys.queue;
    id :| id in h.pendingAcks && id in Ids(queue) && id !in CommandIds(process.log);
    TickAppliesTheUnapplied(h, queue, judge, health, nowMs);
    UnappliedIds(queue, h.pendingAcks);
    AcknowledgedRemoves(queue, TickedHost(h, queue, judge, health, nowMs).pendingAcks);
    LogsJoin(EMPTY, process.log, TickOps(h, queue, judge, health, nowMs));
  }

  lemma TickAppliesTheUnapplied(h: Host, queue: seq<Command>, judge: Judger, health: Health, nowMs: int)
    requires !h.loadError && NoRepeats(Ids(queue))
    ensures var ticked, ops := TickedHost(h, queue, judge, health, nowMs), TickOps(h, queue, judge, health, nowMs);
      CommandIds(ops) == Unapplied(queue, h.pendingAcks) && ticked.pendingAcks == h.pendingAcks + CommandIds(ops)
  {
    hide *;
    var ops, drained := TickOps(h, queue, judge, health, nowMs), Drained(h, queue, nowMs);
    TickAcknowledges(h, queue, judge, health, nowMs);
    DrainAppliesInOrder(h, queue, nowMs);
    var rest := ops[|drained|..];
    assert ops == drained + rest;
    OthersHaveNoIds(rest);
    LogsJoin(EMPTY, drained, rest);
  }

  /** The first thing a tick does is not in the store: a queued command is not, and the rest is news. */
  lemma FirstOpIsNew(sys: System, process: Process, judge: Judger, health: Health, nowMs: int)
    requires ExactlyOnce(sys)
    requires IsNews(sys.storedLog, TickOps(process.host, sys.queue, judge, health, nowMs))
    ensures var ops := TickOps(process.host, sys.queue, judge, health, nowMs); ops != [] ==> ops[0] !in sys.storedLog
  {
    hide Apply, DrainHost, Drained, TickedHost, TickOps, NoRepeats;
    var h, queue := process.host, sys.queue;
    var ops := TickOps(h, queue, judge, health, nowMs);
    TickAcknowledges(h, queue, judge, health, nowMs);
    if ops != [] && ops[0] in sys.storedLog {
      assert ops[0].Request? && Drained(h, queue, nowMs) != [];
      FirstOpIsQueued(h, queue, nowMs);
      var n :| 0 <= n < |sys.storedLog| && sys.storedLog[n] == ops[0];
      CommandIsListed(sys.storedLog, n);
      assert false;
    }
  }

  lemma {:induction false} FirstOpIsQueued(h: Host, queue: seq<Command>, nowMs: int)
    requires Drained(h, queue, nowMs) != []
    ensures Drained(h, queue, nowMs)[0].Request? && Drained(h, queue, nowMs)[0].command.id in Ids(queue)
    decreases queue
  {
    if queue[0].id in h.pendingAcks {
      FirstOpIsQueued(h, queue[1..], nowMs);
      assert Ids(queue) == [queue[0].id] + Ids(queue[1..]);
    } else {
      assert Ids(queue)[0] == queue[0].id;
    }
  }

  lemma {:induction false} CommandIsListed(ops: seq<Op>, n: nat)
    requires n < |ops| && ops[n].Request?
    ensures ops[n].command.id in CommandIds(ops)
  {
    if n < |ops| - 1 {
      CommandIsListed(ops[..|ops| - 1], n);
    }
  }

  // MARK: Runs of whole ticks

  /** A tick of the owner, on its snapshot and the queue as they are then, or a step between ticks. */
  datatype Move =
    | Does(action: Action)
    | Ticks(p: nat, judge: Judger, health: Health, nowMs: int, writeOk: bool)

  predicate CanMove(sys: System, move: Move) {
    match move
    case Does(action) => Enabled(sys, action) && !Works(action)
    case Ticks(p, _, _, _, _) => p in sys.processes && sys.lease == Some(p)
  }

  function Moved(sys: System, move: Move): System
    requires CanMove(sys, move)
  {
    match move
    case Does(action) => Next(sys, action)
    case Ticks(p, judge, health, nowMs, writeOk) => TickedSystem(sys, p, judge, health, nowMs, writeOk)
  }

  ghost predicate CanPlay(sys: System, moves: seq<Move>)
    decreases moves
  {
    moves == [] || (CanMove(sys, moves[0]) && CanPlay(Moved(sys, moves[0]), moves[1..]))
  }

  ghost function Played(sys: System, moves: seq<Move>): System
    requires CanPlay(sys, moves)
    decreases moves
  {
    if moves == [] then sys else Played(Moved(sys, moves[0]), moves[1..])
  }

  /** They are runs of the protocol. */
  lemma {:induction false} PlayedIsARun(sys: System, moves: seq<Move>) returns (actions: seq<Action>)
    requires CanPlay(sys, moves)
    ensures IsRun(sys, actions) && After(sys, actions) == Played(sys, moves)
    decreases moves
  {
    hide Next, Enabled, TickedSystem, TickActions;
    if moves == [] {
      actions := [];
    } else {
      var first;
      match moves[0] {
        case Does(action) =>
          first := [action];
          JustOne(sys, action);
        case Ticks(p, judge, health, nowMs, writeOk) =>
          first := TickActions(p, sys.processes[p].host, sys.queue, judge, health, nowMs, writeOk);
          TickIsARun(sys, p, judge, health, nowMs, writeOk);
      }
      var rest := PlayedIsARun(Moved(sys, moves[0]), moves[1..]);
      RunsJoin(sys, first, rest);
      actions := first + rest;
    }
  }

  lemma OneMove(sys: System, move: Move, rest: seq<Move>)
    requires CanMove(sys, move) && CanPlay(Moved(sys, move), rest)
    ensures CanPlay(sys, [move] + rest) && Played(sys, [move] + rest) == Played(Moved(sys, move), rest)
  {
    hide CanMove, Moved;
    assert ([move] + rest)[1..] == rest && ([move] + rest)[0] == move;
  }

  lemma ThreeMoves(sys: System, a: Move, b: Move, c: Move)
    requires CanMove(sys, a) && CanMove(Moved(sys, a), b) && CanMove(Moved(Moved(sys, a), b), c)
    ensures CanPlay(sys, [a, b, c]) && Played(sys, [a, b, c]) == Moved(Moved(Moved(sys, a), b), c)
  {
    hide CanMove, Moved;
    var end := Moved(Moved(Moved(sys, a), b), c);
    assert CanPlay(end, []) && Played(end, []) == end;
    assert [c] + [] == [c] && [b] + [c] == [b, c] && [a] + [b, c] == [a, b, c];
    OneMove(Moved(Moved(sys, a), b), c, []);
    OneMove(Moved(sys, a), b, [c]);
    OneMove(sys, a, [b, c]);
  }

  lemma {:induction false} PlaysJoin(sys: System, a: seq<Move>, b: seq<Move>)
    requires CanPlay(sys, a) && CanPlay(Played(sys, a), b)
    ensures CanPlay(sys, a + b) && Played(sys, a + b) == Played(Played(sys, a), b)
    decreases a
  {
    hide CanMove, Moved;
    if a == [] {
      assert a + b == b;
    } else {
      PlaysJoin(Moved(sys, a[0]), a[1..], b);
      assert (a + b)[1..] == a[1..] + b && (a + b)[0] == a[0];
    }
  }

  // MARK: Two runs that break the rule

  const NOTHING_YET := System(Absent, [], [], {}, None, map[])
  const IDLE := Process(Host(EMPTY, false, [], false), [])

  function Beating(owner: Owner, ms: int): Health {
    Health(owner, Some(ms))
  }

  function NothingJudged(alerts: seq<PriceAlert>): Option<Judgement> {
    None
  }

  function Quiet(p: nat, owner: Owner, nowMs: int, writeOk: bool): Move {
    Ticks(p, NothingJudged, Beating(owner, nowMs), nowMs, writeOk)
  }

  /** A tick in which no quote is judged. */
  lemma QuietTick(sys: System, p: nat, owner: Owner, nowMs: int, writeOk: bool)
    requires p in sys.processes && sys.lease == Some(p) && sys.processes[p].host.engine.health != Beating(owner, nowMs)
    ensures var process := sys.processes[p];
      var drained := Process(DrainHost(process.host, sys.queue, nowMs),
        process.log + Drained(process.host, sys.queue, nowMs));
      Moved(sys, Quiet(p, owner, nowMs, writeOk))
        == Next(With(sys, p, Performed(drained, Beat(Beating(owner, nowMs)))), SaveTick(p, writeOk))
  {
    var process := sys.processes[p];
    DrainKeepsHealth(process.host, sys.queue, nowMs);
    hide DrainHost, Drained, Next, Step;
    var ops := Drained(process.host, sys.queue, nowMs);
    assert process.log + ops + [Beat(Beating(owner, nowMs))] == process.log
      + (ops + [] + [Beat(Beating(owner, nowMs))]);
  }

  lemma {:induction false} DrainKeepsHealth(h: Host, queue: seq<Command>, nowMs: int)
    ensures DrainHost(h, queue, nowMs).engine.health == h.engine.health
    decreases queue
  {
    if queue != [] && !h.loadError {
      ApplyKeepsHealth(h.engine, queue[0], nowMs);
      hide Apply;
      DrainKeepsHealth(DrainOne(h, queue[0], nowMs), queue[1..], nowMs);
    }
  }

  lemma ApplyKeepsHealth(s: Snapshot, command: Command, nowMs: int)
    ensures Apply(s, command, nowMs).health == s.health
  {
    hide BrokenPrecondition, Put, Without, Saved, WithState, Find, Newest;
  }

  /** The drain of a single command that is new to the host. */
  lemma DrainingOne(h: Host, command: Command, nowMs: int)
    requires !h.loadError && command.id !in h.pendingAcks
    ensures DrainHost(h, [command], nowMs) == DrainOne(h, command, nowMs)
      && Drained(h, [command], nowMs) == [Request(command, nowMs)]
  {
    hide Apply;
    assert [command][1..] == [] && [Request(command, nowMs)] + [] == [Request(command, nowMs)];
  }

  /** The system with the GUI alone. */
  function GuiAlone(
    stored: Stored, log: seq<Op>, queue: seq<Command>, issued: set<nat>, lease: Option<nat>, process: Process
  ): System {
    System(stored, log, queue, issued, lease, map[1 := process])
  }

  /**
   * A command can be lost. The owner applies it, cannot save, gives the lease up for an agent that
   * was registered just then, and reads the store back, which drops the effect but not the pending
   * acknowledgement; as owner again it skips the command, and its next save takes it off the queue.
   */
  const LOST := Command(7, 0, None, ClearHistory)
  const STARTING: seq<Move> := [Does(Start(1, true)), Does(Acquire(1)), Quiet(1, App, 0, true)]
  const FAILING: seq<Move> := [Does(Enqueue(LOST)), Quiet(1, App, 1_000, false), Does(Release(1))]
  const RETURNING: seq<Move> := [Does(Reload(1, true)), Does(Acquire(1)), Quiet(1, App, 5_000, true)]
  const FIRST_BEAT := Beat(Beating(App, 0))
  const LAST_BEAT := Beat(Beating(App, 5_000))

  /** What the first tick stores, and what the second one cannot. */
  const FIRST := Snapshot(1, [], [], [], [], Beating(App, 0))
  const UNSAVED := Snapshot(4, [], [], [LOST.id], [], Beating(App, 1_000))
  const UNSAVED_LOG := [FIRST_BEAT, Request(LOST, 1_000), Beat(Beating(App, 1_000))]

  function Begun(): System {
    GuiAlone(Readable(FIRST), [FIRST_BEAT], [], {}, Some(1), Process(Host(FIRST, false, [], false), [FIRST_BEAT]))
  }

  function Unsaved(): System {
    GuiAlone(Readable(FIRST), [FIRST_BEAT], [LOST], {LOST.id}, None,
      Process(Host(UNSAVED, true, [LOST.id], false), UNSAVED_LOG))
  }

  function Reread(): System {
    Unsaved().(processes := map[1 := Process(Host(FIRST, true, [LOST.id], false), [FIRST_BEAT])])
  }

  lemma GuiBegins()
    ensures CanPlay(NOTHING_YET, STARTING) && Played(NOTHING_YET, STARTING) == Begun()
  {
    var owning := GuiAlone(Absent, [], [], {}, Some(1), IDLE);
    assert Moved(Moved(NOTHING_YET, STARTING[0]), STARTING[1]) == owning;
    QuietTick(owning, 1, App, 0, true);
    assert [] + [] + [FIRST_BEAT] == [FIRST_BEAT];
    assert Moved(owning, STARTING[2]) == Begun();
    hide Moved;
    ThreeMoves(NOTHING_YET, STARTING[0], STARTING[1], STARTING[2]);
  }

  lemma LostIsApplied()
    ensures Apply(FIRST, LOST, 1_000) == UNSAVED.(revision := 3, health := FIRST.health)
  {
    RequestedFrom(FIRST, LOST, 1_000);
    assert ApplyPayload(FIRST, LOST.payload, 1_000) == FIRST.(revision := 2);
  }

  /** A first command without a precondition. */
  lemma RequestedFrom(s: Snapshot, command: Command, nowMs: int)
    requires s.processed == [] && command.precondition.None?
    ensures var done := ApplyPayload(s, command.payload, nowMs);
      Apply(s, command, nowMs) == done.(processed := Newest(done.processed + [command.id], PROCESSED_COMMAND_LIMIT),
        revision := Touch(done.revision))
    ensures ApplyPayload(s, command.payload, nowMs).processed == []
      && Newest([] + [command.id], PROCESSED_COMMAND_LIMIT) == [command.id]
  {
    hide Put, Without, Saved, WithState, Find, Touch;
    assert BrokenPrecondition(s.alerts, command) == None;
    assert [] + [command.id] == [command.id];
  }

  lemma SaveFails()
    ensures CanPlay(Begun(), FAILING) && Played(Begun(), FAILING) == Unsaved()
  {
    LostIsApplied();
    hide Apply;
    var queued := Begun().(queue := [LOST], issued := {LOST.id});
    assert [] + [LOST] == [LOST] && {} + {LOST.id} == {LOST.id} && Moved(Begun(), FAILING[0]) == queued;
    DrainingOne(queued.processes[1].host, LOST, 1_000);
    assert [] + [LOST.id] == [LOST.id];
    QuietTick(queued, 1, App, 1_000, false);
    assert [FIRST_BEAT] + [Request(LOST, 1_000)] + [Beat(Beating(App, 1_000))] == UNSAVED_LOG;
    assert Moved(queued, FAILING[1]) == Unsaved().(lease := Some(1));
    hide Moved;
    ThreeMoves(Begun(), FAILING[0], FAILING[1], FAILING[2]);
  }

  lemma GuiReturns()
    ensures CanPlay(Unsaved(), RETURNING)
    ensures var after := Played(Unsaved(), RETURNING);
      after.issued == {LOST.id} && after.queue == [] && after.storedLog == [FIRST_BEAT, LAST_BEAT]
  {
    assert Moved(Unsaved(), RETURNING[0]) == Reread();
    var owning := Reread().(lease := Some(1));
    AcknowledgedUnapplied(owning);
    assert Moved(Reread(), RETURNING[1]) == owning;
    hide Moved, CanMove;
    ThreeMoves(Unsaved(), RETURNING[0], RETURNING[1], RETURNING[2]);
  }

  lemma AcknowledgedUnapplied(owning: System)
    requires owning == Reread().(lease := Some(1))
    ensures CanMove(Unsaved(), RETURNING[0]) && CanMove(Reread(), RETURNING[1]) && CanMove(owning, RETURNING[2])
    ensures var after := Moved(owning, RETURNING[2]);
      after.issued == {LOST.id} && after.queue == [] && after.storedLog == [FIRST_BEAT, LAST_BEAT]
  {
    hide Apply, Step;
    var host := owning.processes[1].host;
    assert [LOST][1..] == [] && DrainHost(host, [LOST], 5_000) == host && Drained(host, [LOST], 5_000) == [];
    QuietTick(owning, 1, App, 5_000, true);
    assert [FIRST_BEAT] + [] + [LAST_BEAT] == [FIRST_BEAT, LAST_BEAT];
    assert Acknowledged([LOST], [LOST.id]) == [];
  }

  /**
   * The GUI's decisions in both runs: it gives way to an agent just registered, and takes over from one
   * that fell silent.
   */
  lemma GuiDecides()
    ensures Own.GuiDecision(Own.Enabled, Own.Seen(App, Some(1_000)), 1_500, 1_500) == Own.StartupGrace
    ensures Own.GuiDecision(Own.Enabled, Own.Seen(App, Some(0)), 5_000, 1_500) == Own.Foreground
    ensures Own.GuiDecision(Own.Enabled, Own.Seen(Agent, Some(0)), 7_000, 0) == Own.Foreground
  {
  }

  lemma NothingIsSound()
    ensures Sound(NOTHING_YET)
  {
  }

  lemma CommandCanBeLost()
    ensures Sound(NOTHING_YET) && CanPlay(NOTHING_YET, STARTING + FAILING + RETURNING)
    ensures var after := Played(NOTHING_YET, STARTING + FAILING + RETURNING);
      LOST.id in after.issued && LOST.id !in Ids(after.queue) && LOST.id !in CommandIds(after.storedLog)
  {
    GuiBegins();
    SaveFails();
    GuiReturns();
    NothingIsSound();
    assert FIRST_BEAT.Beat? && LAST_BEAT.Beat?;
    hide *;
    OthersHaveNoIds([FIRST_BEAT, LAST_BEAT]);
    PlaysJoin(NOTHING_YET, STARTING, FAILING);
    PlaysJoin(NOTHING_YET, STARTING + FAILING, RETURNING);
  }

  /** Every alert judged by one quote; an event is given the id of its alert. */
  function JudgedByQuote(alerts: seq<PriceAlert>, quote: Quote, nowMs: int): Judgement {
    if alerts == [] then Judgement([], [])
    else
      var n := |alerts| - 1;
      var front, last := JudgedByQuote(alerts[..n], quote, nowMs), alerts[n];
      var events := if Fires(last, quote)
        then [Event(last.id, last.id, quote.price, last.condition.Target().value, nowMs)] else [];
      Judgement(front.events + events, front.judged + [Judged(last, quote)])
  }

  /**
   * A stored event can be lost. The GUI reads the alerts back and then draws no frame for a while;
   * the agent fires an alert, stores the event and dies; the GUI's next frame finds the heartbeat
   * it read too old, takes the lease, and its first save puts back the history it read.
   */
  const WATCHED := PriceAlert(5, "BTC", CrossesAbove(1.0), Usd, Once, Active, "", [], None, false, None, None, 0)
  const WATCH := Command(6, 0, None, Save(WATCHED, Some(0.5)))
  const QUOTE := Quote("BTC", 1.0, Some(Usd), "1000", true)
  const EVENT := Event(5, 5, 1.0, 1.0, 1_000)
  const AGENT_STARTING: seq<Move> := [Does(Start(1, true)), Does(Enqueue(WATCH)), Does(StartAsOwner(2, true))]
  const FIRING: seq<Move> :=
    [Quiet(2, Agent, 0, true), Does(Reload(1, true)),
     Ticks(2, alerts => Some(JudgedByQuote(alerts, QUOTE, 1_000)), Beating(Agent, 1_000), 1_000, true)]
  const FORGETTING: seq<Move> := [Does(Crash(2)), Does(Acquire(1)), Quiet(1, App, 7_000, true)]

  lemma EventCanBeLost()
    ensures Sound(NOTHING_YET) && CanPlay(NOTHING_YET, AGENT_STARTING + FIRING)
      && CanPlay(NOTHING_YET, AGENT_STARTING + FIRING + FORGETTING)
    ensures var fired := Played(NOTHING_YET, AGENT_STARTING + FIRING);
      fired.stored.Readable? && fired.stored.snapshot.history == [EVENT]
    ensures var after := Played(NOTHING_YET, AGENT_STARTING + FIRING + FORGETTING);
      after.stored.Readable? && after.stored.snapshot.history == [] && after.issued == {WATCH.id}
  {
    AgentStarts();
    AgentFires();
    GuiForgets();
    NothingIsSound();
    assert Fired().stored == Readable(SAVED);
    hide *;
    PlaysJoin(NOTHING_YET, AGENT_STARTING, FIRING);
    PlaysJoin(NOTHING_YET, AGENT_STARTING + FIRING, FORGETTING);
  }

  /** The alert as the agent stores it, and once it has fired. */
  const WATCHING := WATCHED.(armed := true, previous := Some(0.5))
  const SPENT := WATCHING.(armed := false, state := Triggered, previous := Some(1.0), fingerprint := Some("1000:USD"))
  const READ := Snapshot(3, [WATCHING], [], [WATCH.id], [], Beating(Agent, 0))
  const READ_LOG := [Request(WATCH, 0), Beat(Beating(Agent, 0))]
  const SAVED := Snapshot(5, [SPENT], [EVENT], [WATCH.id], [], Beating(Agent, 1_000))
  const SAVED_LOG := READ_LOG + [Evaluate([EVENT], [SPENT]), Beat(Beating(Agent, 1_000))]

  function Prepared(): System {
    System(Absent, [], [WATCH], {WATCH.id}, Some(2), map[1 := IDLE, 2 := IDLE])
  }

  function Fired(): System {
    System(Readable(SAVED), SAVED_LOG, [], {WATCH.id}, Some(2),
           map[1 := Process(Host(READ, false, [], false), READ_LOG),
             2 := Process(Host(SAVED, false, [], false), SAVED_LOG)])
  }

  lemma AgentStarts()
    ensures CanPlay(NOTHING_YET, AGENT_STARTING) && Played(NOTHING_YET, AGENT_STARTING) == Prepared()
  {
    var s1 := GuiAlone(Absent, [], [], {}, None, IDLE);
    assert Moved(NOTHING_YET, AGENT_STARTING[0]) == s1;
    assert [] + [WATCH] == [WATCH] && {} + {WATCH.id} == {WATCH.id};
    var s2 := s1.(queue := [WATCH], issued := {WATCH.id});
    assert Moved(s1, AGENT_STARTING[1]) == s2 && Moved(s2, AGENT_STARTING[2]) == Prepared();
    hide Moved;
    ThreeMoves(NOTHING_YET, AGENT_STARTING[0], AGENT_STARTING[1], AGENT_STARTING[2]);
  }

  lemma WatchIsSaved()
    ensures ApplyPayload(EMPTY, WATCH.payload, 0) == READ.(revision := 1, health := EMPTY.health, processed := [])
  {
    assert Saved(WATCHED, Some(0.5), 0) == WATCHING;
    assert Put([], WATCHING) == [WATCHING];
    hide Saved, Put;
  }

  lemma WatchIsApplied()
    ensures Apply(EMPTY, WATCH, 0) == READ.(revision := 2, health := EMPTY.health)
  {
    WatchIsSaved();
    RequestedFrom(EMPTY, WATCH, 0);
    hide Apply, ApplyPayload, Newest;
  }

  lemma QuoteFires()
    ensures JudgedByQuote([WATCHING], QUOTE, 1_000) == Judgement([EVENT], [SPENT])
  {
    assert FingerprintOf(QUOTE, Usd) == "1000:USD";
    assert Fires(WATCHING, QUOTE) && Judged(WATCHING, QUOTE) == SPENT;
    assert [WATCHING][..0] == [] && JudgedByQuote([], QUOTE, 1_000) == Judgement([], []);
    assert [] + [EVENT] == [EVENT] && [] + [SPENT] == [SPENT];
  }

  /** After the agent's first tick, and once the GUI has read what it stored. */
  function Watching(gui: Process): System {
    System(Readable(READ), READ_LOG, [], {WATCH.id}, Some(2),
      map[1 := gui, 2 := Process(Host(READ, false, [], false), READ_LOG)])
  }

  function Following(): System {
    Watching(Process(Host(READ, false, [], false), READ_LOG))
  }

  lemma WatchIsDrained()
    ensures var drained := Process(DrainHost(IDLE.host, [WATCH], 0), [] + Drained(IDLE.host, [WATCH], 0));
      Performed(drained, Beat(Beating(Agent, 0))) == Process(Host(READ, true, [WATCH.id], false), READ_LOG)
  {
    WatchIsApplied();
    DrainingOne(IDLE.host, WATCH, 0);
    hide Apply, DrainHost, Drained;
    assert [] + [Request(WATCH, 0)] + [Beat(Beating(Agent, 0))] == READ_LOG && [] + [WATCH.id] == [WATCH.id];
  }

  lemma AgentWatches()
    ensures CanMove(Prepared(), FIRING[0]) && Moved(Prepared(), FIRING[0]) == Watching(IDLE)
  {
    assert CanMove(Prepared(), FIRING[0]) && Prepared().processes[2] == IDLE && Prepared().queue == [WATCH];
    assert IDLE.host.engine.health != Beating(Agent, 0) && IDLE.log == [];
    hide *;
    WatchIsDrained();
    QuietTick(Prepared(), 2, Agent, 0, true);
    WatchIsStored();
  }

  lemma WatchIsStored()
    ensures Enabled(With(Prepared(), 2, Process(Host(READ, true, [WATCH.id], false), READ_LOG)), SaveTick(2, true))
    ensures Next(With(Prepared(), 2, Process(Host(READ, true, [WATCH.id], false), READ_LOG)), SaveTick(2, true))
      == Watching(IDLE)
  {
    assert Acknowledged([WATCH], [WATCH.id]) == [];
  }

  lemma GuiFollows()
    ensures CanMove(Watching(IDLE), FIRING[1]) && Moved(Watching(IDLE), FIRING[1]) == Following()
  {
  }

  lemma AgentFires()
    ensures CanPlay(Prepared(), FIRING) && Played(Prepared(), FIRING) == Fired()
  {
    AgentWatches();
    GuiFollows();
    TickFires();
    hide Moved, CanMove, Prepared, Watching, Following, Fired;
    ThreeMoves(Prepared(), FIRING[0], FIRING[1], FIRING[2]);
  }

  lemma TickFires()
    ensures CanMove(Following(), FIRING[2]) && Moved(Following(), FIRING[2]) == Fired()
  {
    QuoteFires();
    assert [] + [EVENT] == [EVENT];
    var host := Host(READ, false, [], false);
    var ops := [Evaluate([EVENT], [SPENT]), Beat(Beating(Agent, 1_000))];
    assert DrainHost(host, [], 1_000) == host && Drained(host, [], 1_000) == [];
    assert TickedHost(host, [], FIRING[2].judge, FIRING[2].health, 1_000) == Host(SAVED, true, [], false);
    assert TickOps(host, [], FIRING[2].judge, FIRING[2].health, 1_000) == ops;
    hide TickOps, TickedHost;
  }

  lemma GuiForgets()
    ensures CanPlay(Fired(), FORGETTING)
    ensures var after := Played(Fired(), FORGETTING);
      after.stored.Readable? && after.stored.snapshot.history == [] && after.issued == {WATCH.id}
  {
    var host := Host(READ, false, [], false);
    var owning := GuiAlone(Readable(SAVED), SAVED_LOG, [], {WATCH.id}, Some(1), Process(host, READ_LOG));
    assert Moved(Moved(Fired(), FORGETTING[0]), FORGETTING[1]) == owning;
    assert DrainHost(host, [], 7_000) == host && Drained(host, [], 7_000) == [];
    QuietTick(owning, 1, App, 7_000, true);
    hide Moved;
    ThreeMoves(Fired(), FORGETTING[0], FORGETTING[1], FORGETTING[2]);
  }
}
