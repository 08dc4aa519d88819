// How the runtime changes hands and what its processes do to the store, together: every play of
// frames, polls and deaths is a run of the protocol. See src/app.rs and src/host/alert_runtime.rs.
module AlertPlay {
  import opened Text
  import opened Machine
  import opened AlertEngine
  import opened AlertProtocol
  import opened AlertTakeover
  import opened AlertRuntime
  import Own = AlertOwnership

  /** What a move meets: whether reads and writes succeed, what quotes say, and whether a tick is due. */
  datatype Detail = Detail(
    readOk: bool, writeOk: bool, judge: seq<PriceAlert> -> Option<Judgement>, health: Health, nowMs: int, due: bool)

  /** Who has alerts in memory: every GUI, and the agent once it holds the lease. */
  predicate HasHost(actor: Own.Actor) {
    actor.Gui? || actor.holds
  }

  /** Both tell the same story: one lock, and one process for each host. */
  ghost predicate Agree(w: Own.World, sys: System) {
    && w.lock == sys.lease
    && forall p :: p in sys.processes <==> p in w.actors && HasHost(w.actors[p])
  }

  function Ticking(p: nat, host: Host, queue: seq<Command>, d: Detail): seq<Action> {
    if d.due then TickActions(p, host, queue, d.judge, d.health, d.nowMs, d.writeOk) else []
  }

  /** The steps of the protocol a move consists of. */
  ghost function StepsOf(w: Own.World, sys: System, move: Own.Move, d: Detail): seq<Action>
    requires Own.Possible(w, move) && Agree(w, sys)
  {
    match move
    case GuiStarts(p, _, _) => [Start(p, d.readOk)]
    case AgentStarts(_) => []
    case Frames(p, frame) =>
      var owned, owns := w.actors[p].control.owns, Own.Ticks(w.actors[p].control, frame);
      if owns then (if owned then [] else [Acquire(p)]) + Ticking(p, sys.processes[p].host, sys.queue, d)
      else (if owned then [Release(p)] else []) + [Reload(p, d.readOk)]
    case Retries(p, _, _) => if w.actors[p].control.owns then [Release(p)] else []
    case Polls(p) =>
      if w.actors[p].holds then Ticking(p, sys.processes[p].host, sys.queue, d)
      else if w.lock.None? then [StartAsOwner(p, d.readOk)] + Ticking(p, Started(sys, d.readOk).host, sys.queue, d)
      else []
    case Dies(p) => if p in sys.processes then [Crash(p)] else []
  }

  lemma TickingIsARun(sys: System, p: nat, d: Detail)
    requires p in sys.processes && sys.lease == Some(p)
    ensures var actions := Ticking(p, sys.processes[p].host, sys.queue, d);
      IsRun(sys, actions) && After(sys, actions).lease == Some(p)
        && After(sys, actions).processes.Keys == sys.processes.Keys
  {
    hide TickActions, TickOps, DrainHost, Drained, TickedHost, Acknowledged;
    if d.due {
      TickIsARun(sys, p, d.judge, d.health, d.nowMs, d.writeOk);
    }
  }

  /**
   * Every move is a run of the protocol: a frame that runs the alerts takes the lease only when it
   * is free and ticks only as its owner, and one that does not only follows the store.
   */
  lemma MoveIsARun(w: Own.World, sys: System, move: Own.Move, d: Detail)
    requires Own.OneOwner(w) && Own.Possible(w, move) && Agree(w, sys)
    ensures IsRun(sys, StepsOf(w, sys, move, d))
    ensures Agree(Own.Take(w, move), After(sys, StepsOf(w, sys, move, d)))
  {
    hide Ticking, Own.Probed, Own.Polled, Own.FrameDecision;
    match move {
      case Frames(p, frame) => FrameIsARun(w, sys, p, frame, d);
      case Polls(p) => PollIsARun(w, sys, p, d);
      case GuiStarts(p, _, _) => JustOne(sys, Start(p, d.readOk));
      case Retries(p, _, _) =>
        if w.actors[p].control.owns {
          JustOne(sys, Release(p));
        }
      case Dies(p) =>
        if p in sys.processes {
          JustOne(sys, Crash(p));
        }
      case AgentStarts(_) =>
    }
  }

  lemma FrameIsARun(w: Own.World, sys: System, p: nat, frame: Own.Frame, d: Detail)
    requires Own.OneOwner(w) && Own.Possible(w, Own.Frames(p, frame)) && Agree(w, sys)
    ensures IsRun(sys, StepsOf(w, sys, Own.Frames(p, frame), d))
    ensures Agree(Own.Take(w, Own.Frames(p, frame)), After(sys, StepsOf(w, sys, Own.Frames(p, frame), d)))
  {
    hide Ticking, Own.Probed, Own.Polled, Own.FrameDecision, Started, IsRun, After, LoadHost, ReloadHost,
      ReloadReplaces;
    var owned, owns := w.actors[p].control.owns, Own.Ticks(w.actors[p].control, frame);
    if owns {
      if owned {
        TickingIsARun(sys, p, d);
        assert [] + Ticking(p, sys.processes[p].host, sys.queue, d) == Ticking(p, sys.processes[p].host, sys.queue, d);
      } else {
        TickingIsARun(Next(sys, Acquire(p)), p, d);
        OneStep(sys, Acquire(p), Ticking(p, sys.processes[p].host, sys.queue, d));
      }
    } else if owned {
      var released := Next(sys, Release(p));
      JustOne(released, Reload(p, d.readOk));
      OneStep(sys, Release(p), [Reload(p, d.readOk)]);
    } else {
      assert [] + [Reload(p, d.readOk)] == [Reload(p, d.readOk)];
      JustOne(sys, Reload(p, d.readOk));
    }
  }

  lemma PollIsARun(w: Own.World, sys: System, p: nat, d: Detail)
    requires Own.OneOwner(w) && Own.Possible(w, Own.Polls(p)) && Agree(w, sys)
    ensures IsRun(sys, StepsOf(w, sys, Own.Polls(p), d))
    ensures Agree(Own.Take(w, Own.Polls(p)), After(sys, StepsOf(w, sys, Own.Polls(p), d)))
  {
    hide Ticking, LoadHost;
    if w.actors[p].holds {
      TickingIsARun(sys, p, d);
    } else if w.lock.None? {
      TickingIsARun(Next(sys, StartAsOwner(p, d.readOk)), p, d);
      OneStep(sys, StartAsOwner(p, d.readOk), Ticking(p, Started(sys, d.readOk).host, sys.queue, d));
    }
  }

  /**
   * Whatever starts, dies, beats or answers, a whole play is a run of the protocol: what those runs
   * keep, the processes keep, and the one who saves is always the one who holds the lock.
   */
  lemma {:induction false} PlayIsARun(
    w: Own.World, sys: System, moves: seq<Own.Move>, details: seq<Detail>
  ) returns (actions: seq<Action>)
    requires Own.OneOwner(w) && Own.IsPlay(w, moves) && Agree(w, sys) && |details| == |moves|
    ensures IsRun(sys, actions) && Agree(Own.Outcome(w, moves), After(sys, actions))
    decreases moves
  {
    if moves == [] {
      actions := [];
    } else {
      var first := StepsOf(w, sys, moves[0], details[0]);
      MoveIsARun(w, sys, moves[0], details[0]);
      Own.MoveKeepsOneOwner(w, moves[0]);
      hide Agree, StepsOf, Own.OneOwner, Own.Take, Own.Possible;
      var rest := PlayIsARun(Own.Take(w, moves[0]), After(sys, first), moves[1..], details[1..]);
      RunsJoin(sys, first, rest);
      actions := first + rest;
    }
  }
}
