// Who runs the alerts: the GUI and the agent hand the lease to each other by heartbeats, service
// states and a file lock. See src/host/alert_runtime.rs and the GUI half in src/app.rs.
module AlertOwnership {
  import opened Text
  import opened Machine
  import opened AlertEngine

  // MARK: Handing the runtime over

  datatype ServiceState = Enabled | Disabled | RequiresApproval | NotFound | Failed | Unavailable
  datatype Decision = ToAgent | StartupGrace | Foreground
  datatype Answer = Pending | Disconnected | Reported(state: ServiceState)

  const HEARTBEAT_FRESH_MS: I64 := 5_000
  const AGENT_STARTUP_GRACE_MS: I64 := 3_000
  const STATUS_INTERVAL_MS: I64 := 1_000

  /** What the GUI knows of the stored health: who beat last, and when. */
  datatype Seen = Seen(owner: Owner, heartbeat: Option<I64>)

  predicate HeartbeatIsFresh(seen: Seen, nowMs: I64) {
    seen.owner == Agent && seen.heartbeat.Some? && SaturatingSub(nowMs, seen.heartbeat.value) <= HEARTBEAT_FRESH_MS
  }

  function GuiDecision(service: ServiceState, seen: Seen, nowMs: I64, registeredMs: I64): Decision {
    if service == Enabled && HeartbeatIsFresh(seen, nowMs) then ToAgent
    else if service == Enabled && SaturatingSub(nowMs, registeredMs) < AGENT_STARTUP_GRACE_MS then StartupGrace
    else Foreground
  }

  datatype Control = Control(owns: bool, registeredMs: I64, service: ServiceState, lastCheckMs: I64, probing: bool)

  /** One frame of the GUI: the clock, the health it knows, and what the system answers. */
  datatype Frame = Frame(nowMs: I64, seen: Seen, answer: Answer, serviceLocks: bool, lockFree: bool)

  class AlertRuntimeControl {
    var owns: bool
    var registeredMs: I64
    var service: ServiceState
    var lastCheckMs: I64
    var probing: bool

    ghost function State(): Control
      reads this
    {
      Control(owns, registeredMs, service, lastCheckMs, probing)
    }

    constructor (service: ServiceState, nowMs: I64)
      ensures State() == NewControl(service, nowMs)
    {
      owns, registeredMs, this.service, lastCheckMs, probing := false, nowMs, service, I64_MIN / 2, false;
    }

    /** A registration just tried: the agent gets its grace period, and older answers are dropped. */
    method Retrying(service: ServiceState, nowMs: I64)
      modifies this
      ensures State() == Control(false, nowMs, service, nowMs, false)
    {
      owns, registeredMs, this.service, lastCheckMs, probing := false, nowMs, service, nowMs, false;
    }

    method PollServiceStatus(answer: Answer)
      modifies this
      ensures State() == Polled(old(State()), answer)
    {
      if !probing {
        return;
      }
      match answer {
        case Reported(state) =>
          service := state;
          probing := false;
        case Disconnected => probing := false;
        case Pending =>
      }
    }

    /** Whether the frame runs the alerts itself; otherwise it follows the store. */
    method RunFrame(frame: Frame) returns (ticks: bool)
      modifies this
      ensures State() == AfterFrame(old(State()), frame)
      ensures ticks == Ticks(old(State()), frame)
    {
      PollServiceStatus(frame.answer);
      if !probing && SaturatingSub(frame.nowMs, lastCheckMs) >= STATUS_INTERVAL_MS {
        if frame.serviceLocks {
          probing := true;
        } else {
          service := Failed;
        }
        lastCheckMs := frame.nowMs;
      }
      var decision := GuiDecision(service, frame.seen, frame.nowMs, registeredMs);
      if decision != Foreground {
        owns := false;
      } else if !owns {
        owns := frame.lockFree;
      }
      ticks := decision == Foreground && owns;
    }
  }

  function NewControl(service: ServiceState, nowMs: I64): Control {
    Control(false, nowMs, service, I64_MIN / 2, false)
  }

  function Polled(c: Control, answer: Answer): Control {
    if !c.probing || answer.Pending? then c
    else c.(probing := false, service := if answer.Reported? then answer.state else c.service)
  }

  function Probed(c: Control, frame: Frame): Control {
    if c.probing || SaturatingSub(frame.nowMs, c.lastCheckMs) < STATUS_INTERVAL_MS then c
    else c.(probing := frame.serviceLocks, service := if frame.serviceLocks then c.service else Failed,
      lastCheckMs := frame.nowMs)
  }

  function FrameDecision(c: Control, frame: Frame): Decision {
    GuiDecision(Probed(Polled(c, frame.answer), frame).service, frame.seen, frame.nowMs, c.registeredMs)
  }

  function AfterFrame(c: Control, frame: Frame): Control {
    Probed(Polled(c, frame.answer), frame).(owns := FrameDecision(c, frame).Foreground? && (c.owns || frame.lockFree))
  }

  predicate Ticks(c: Control, frame: Frame) {
    FrameDecision(c, frame).Foreground? && (c.owns || frame.lockFree)
  }

  function AfterFrames(c: Control, frames: seq<Frame>): Control {
    if frames == [] then c else AfterFrame(AfterFrames(c, frames[..|frames| - 1]), frames[|frames| - 1])
  }

  /** No heartbeat of an agent after `lastBeat` is known. */
  predicate AgentIsDead(seen: Seen, lastBeat: int) {
    seen.owner == Agent && seen.heartbeat.Some? ==> seen.heartbeat.value <= lastBeat
  }

  /**
   * Once an agent's last heartbeat is 5 s old and the last registration 3 s, every frame runs the
   * alerts in the foreground, whatever the system service answers, if the first finds the lease free.
   */
  lemma {:induction false} DeadAgentLeadsToForeground(c: Control, frames: seq<Frame>, lastBeat: int)
    requires frames != [] && (c.owns || frames[0].lockFree)
    requires forall f <- frames ::
      && AgentIsDead(f.seen, lastBeat)
      && f.nowMs > lastBeat + HEARTBEAT_FRESH_MS && f.nowMs >= c.registeredMs + AGENT_STARTUP_GRACE_MS
    ensures forall i :: 0 <= i < |frames| ==> Ticks(AfterFrames(c, frames[..i]), frames[i])
    ensures AfterFrames(c, frames).owns && AfterFrames(c, frames).registeredMs == c.registeredMs
  {
    hide GuiDecision, Probed, Polled, AgentIsDead, AfterFrame, Ticks;
    var n := |frames| - 1;
    assert frames[n] in frames;
    if n == 0 {
      assert frames[..0] == [];
      DeadAgentFrame(c, frames[0], lastBeat);
    } else {
      DeadAgentLeadsToForeground(c, frames[..n], lastBeat);
      DeadAgentFrame(AfterFrames(c, frames[..n]), frames[n], lastBeat);
      forall i | 0 <= i < n ensures Ticks(AfterFrames(c, frames[..i]), frames[i]) {
        assert frames[..n][..i] == frames[..i];
      }
    }
  }

  lemma DeadAgentFrame(c: Control, frame: Frame, lastBeat: int)
    requires (c.owns || frame.lockFree) && AgentIsDead(frame.seen, lastBeat)
    requires frame.nowMs > lastBeat + HEARTBEAT_FRESH_MS && frame.nowMs >= c.registeredMs + AGENT_STARTUP_GRACE_MS
    ensures Ticks(c, frame) && AfterFrame(c, frame).owns && AfterFrame(c, frame).registeredMs == c.registeredMs
  {
  }

  /**
   * The bounds are exact. A frame under a service that is enabled and stays so leaves the runtime to
   * the agent precisely until both have run out.
   */
  lemma ForegroundExactlyAfterTheBounds(c: Control, frame: Frame)
    requires c.service == Enabled && frame.serviceLocks && (frame.answer.Reported? ==> frame.answer.state == Enabled)
    ensures FrameDecision(c, frame) == Foreground <==>
      && (frame.seen.owner == Agent && frame.seen.heartbeat.Some? ==>
        frame.nowMs - frame.seen.heartbeat.value > HEARTBEAT_FRESH_MS)
      && frame.nowMs - c.registeredMs >= AGENT_STARTUP_GRACE_MS
    ensures frame.nowMs - c.registeredMs < AGENT_STARTUP_GRACE_MS ==> !AfterFrame(c, frame).owns
  {
  }

  // MARK: One owner

  datatype Actor = Gui(control: Control) | AgentLoop(holds: bool)

  /** The file lock, which the system releases when its holder dies, and everyone who wants it. */
  datatype World = World(lock: Option<nat>, actors: map<nat, Actor>)

  datatype Move =
    | GuiStarts(p: nat, service: ServiceState, nowMs: I64)
    | AgentStarts(p: nat)
    | Frames(p: nat, frame: Frame)
    | Retries(p: nat, service: ServiceState, nowMs: I64)
    | Polls(p: nat)
    | Dies(p: nat)

  predicate Owns(actor: Actor) {
    match actor
    case Gui(control) => control.owns
    case AgentLoop(holds) => holds
  }

  /** A lock can be taken when nobody has it; failing to open the file looks like a lock that is taken. */
  predicate Possible(w: World, move: Move) {
    match move
    case GuiStarts(p, _, _) => p !in w.actors
    case AgentStarts(p) => p !in w.actors
    case Frames(p, frame) => p in w.actors && w.actors[p].Gui? && (frame.lockFree ==> w.lock.None?)
    case Retries(p, _, _) => p in w.actors && w.actors[p].Gui?
    case Polls(p) => p in w.actors && w.actors[p].AgentLoop?
    case Dies(p) => p in w.actors
  }

  function LockAfter(lock: Option<nat>, p: nat, owned: bool, owns: bool): Option<nat> {
    if owns then Some(p) else if owned then None else lock
  }

  function Moved(w: World, p: nat, actor: Actor): World {
    World(LockAfter(w.lock, p, p in w.actors && Owns(w.actors[p]), Owns(actor)), w.actors[p := actor])
  }

  function Take(w: World, move: Move): World
    requires Possible(w, move)
  {
    match move
    case GuiStarts(p, service, nowMs) => Moved(w, p, Gui(NewControl(service, nowMs)))
    case AgentStarts(p) => Moved(w, p, AgentLoop(false))
    case Frames(p, frame) => Moved(w, p, Gui(AfterFrame(w.actors[p].control, frame)))
    case Retries(p, service, nowMs) => Moved(w, p, Gui(Control(false, nowMs, service, nowMs, false)))
    case Polls(p) => Moved(w, p, AgentLoop(w.actors[p].holds || w.lock.None?))
    case Dies(p) => World(if Owns(w.actors[p]) then None else w.lock, w.actors - {p})
  }

  ghost predicate IsPlay(w: World, moves: seq<Move>)
    decreases moves
  {
    moves == [] || (Possible(w, moves[0]) && IsPlay(Take(w, moves[0]), moves[1..]))
  }

  ghost function Outcome(w: World, moves: seq<Move>): World
    requires IsPlay(w, moves)
    decreases moves
  {
    if moves == [] then w else Outcome(Take(w, moves[0]), moves[1..])
  }

  predicate OneOwner(w: World) {
    && (w.lock.Some? ==> w.lock.value in w.actors)
    && (forall p <- w.actors :: Owns(w.actors[p]) <==> w.lock == Some(p))
  }

  /** Whatever starts, dies, beats or answers, at most one process owns the runtime. */
  lemma {:induction false} NeverTwoOwners(w: World, moves: seq<Move>)
    requires OneOwner(w) && IsPlay(w, moves)
    ensures OneOwner(Outcome(w, moves))
    ensures var after := Outcome(w, moves);
      forall p, q | p in after.actors && q in after.actors && Owns(after.actors[p]) && Owns(after.actors[q]) :: p == q
    decreases moves
  {
    if moves != [] {
      MoveKeepsOneOwner(w, moves[0]);
      hide OneOwner, Take, Possible;
      NeverTwoOwners(Take(w, moves[0]), moves[1..]);
    }
  }

  lemma MoveKeepsOneOwner(w: World, move: Move)
    requires OneOwner(w) && Possible(w, move)
    ensures OneOwner(Take(w, move))
  {
    hide GuiDecision, Probed, Polled;
  }
}
