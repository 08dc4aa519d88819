// Whole runs of the alert runtime: what every interleaving of the GUI, the agent and their crashes
// keeps, and when a process follows what is stored.
module AlertTakeover {
  import opened Text
  import opened AlertEngine
  import opened AlertProtocol

  ghost predicate IsRun(sys: System, actions: seq<Action>)
    decreases actions
  {
    actions == [] || (Enabled(sys, actions[0]) && IsRun(Next(sys, actions[0]), actions[1..]))
  }

  ghost function After(sys: System, actions: seq<Action>): System
    requires IsRun(sys, actions)
    decreases actions
  {
    if actions == [] then sys else After(Next(sys, actions[0]), actions[1..])
  }

  ghost predicate TakesOversFollow(sys: System, actions: seq<Action>)
    requires IsRun(sys, actions)
    decreases actions
  {
    actions == [] || (TakesOverByTheRule(sys, actions[0]) && TakesOversFollow(Next(sys, actions[0]), actions[1..]))
  }

  /**
   * Over every run in which a process takes the lease only while it follows the store: each
   * command ever issued is queued or has its one effect in the stored snapshot, the stored
   * snapshot only ever gains operations, and a snapshot that cannot be read is never replaced.
   */
  lemma {:induction false} RunsKeepEverything(sys: System, actions: seq<Action>)
    requires Sound(sys) && IsRun(sys, actions) && TakesOversFollow(sys, actions)
    ensures Sound(After(sys, actions)) && sys.storedLog <= After(sys, actions).storedLog
    ensures sys.stored.Unreadable? ==> After(sys, actions).stored.Unreadable?
    decreases actions
  {
    hide Sound, Next, Enabled, TakesOverByTheRule;
    if actions != [] {
      StepKeepsEverything(sys, actions[0]);
      RunsKeepEverything(Next(sys, actions[0]), actions[1..]);
    }
  }

  predicate Clears(op: Op) {
    op.Request? && op.command.payload.ClearHistory?
  }

  lemma {:induction false} HistoryOnlyGrows(s: Snapshot, ops: seq<Op>)
    requires forall op <- ops :: !Clears(op)
    ensures s.history <= Replay(s, ops).history
  {
    hide Step;
    if ops != [] {
      HistoryOnlyGrows(s, ops[..|ops| - 1]);
      StepKeepsHistory(Replay(s, ops[..|ops| - 1]), ops[|ops| - 1]);
    }
  }

  lemma StepKeepsHistory(s: Snapshot, op: Op)
    requires !Clears(op)
    ensures s.history <= Step(s, op).history
  {
    if op.Request? {
      match op.command.payload {
        case Save(_, _) =>
        case SetState(_, _, _) =>
        case Delete(_) =>
        case RequestAuthorization =>
      }
    }
  }

  /** No later save loses a stored trigger event, unless somebody asked for the history to be cleared. */
  lemma StoredEventsStay(sys: System, actions: seq<Action>, event: Event)
    requires Sound(sys) && IsRun(sys, actions) && TakesOversFollow(sys, actions)
    requires sys.stored.Readable? && event in sys.stored.snapshot.history
    requires forall i :: |sys.storedLog| <= i < |After(sys, actions).storedLog| ==>
      !Clears(After(sys, actions).storedLog[i])
    ensures After(sys, actions).stored.Readable? ==> event in After(sys, actions).stored.snapshot.history
  {
    hide Step;
    RunsKeepEverything(sys, actions);
    var before, later := sys.storedLog, After(sys, actions).storedLog;
    LogsJoin(EMPTY, before, later[|before|..]);
    assert before + later[|before|..] == later;
    HistoryOnlyGrows(Replay(EMPTY, before), later[|before|..]);
  }

  // MARK: When a process follows

  lemma StartingFollows(sys: System, p: nat, readOk: bool)
    requires Sound(sys) && Enabled(sys, Start(p, readOk))
    ensures Follows(Next(sys, Start(p, readOk)), Next(sys, Start(p, readOk)).processes[p])
  {
  }

  /**
   * Reading a newer snapshot makes a process follow exactly when no command it holds for
   * acknowledgement is still queued: those were applied to the snapshot it has just dropped.
   */
  lemma ReloadingFollows(sys: System, p: nat)
    requires Sound(sys) && Enabled(sys, Reload(p, true)) && ReloadReplaces(sys.processes[p].host, sys.stored, true)
    ensures Follows(Next(sys, Reload(p, true)), Next(sys, Reload(p, true)).processes[p])
      <==> forall id <- sys.processes[p].host.pendingAcks :: id !in Ids(sys.queue)
  {
  }

  /** Who follows goes on following until another process saves, or it reloads a newer snapshot itself. */
  lemma FollowingLasts(sys: System, p: nat, action: Action)
    requires Sound(sys) && Enabled(sys, action) && p in sys.processes && Follows(sys, sys.processes[p])
    requires action.SaveTick? && action.p != p ==> !Saves(sys.processes[action.p].host, action.writeOk)
    requires action.Crash? ==> action.p != p
    requires action.Reload? && action.p == p ==> !ReloadReplaces(sys.processes[p].host, sys.stored, action.readOk)
    ensures p in Next(sys, action).processes && Follows(Next(sys, action), Next(sys, action).processes[p])
  {
    hide ProcessSound, Follows, ExactlyOnce;
    match action {
      case Enqueue(command) => QueueingFollows(sys, p, command);
      case Reload(q, readOk) => RereadingFollows(sys, q, p, readOk);
      case Drain(_, _) => TickFollows(sys, p, action);
      case Judge(_, _, _) => TickFollows(sys, p, action);
      case Heartbeat(_, _) => TickFollows(sys, p, action);
      case SaveTick(_, _) => TickFollows(sys, p, action);
      case _ => SoundnessIgnoresProcesses(sys, Next(sys, action));
    }
  }

  lemma TickFollows(sys: System, p: nat, action: Action)
    requires Sound(sys) && Enabled(sys, action) && p in sys.processes && Follows(sys, sys.processes[p])
    requires action.Drain? || action.Judge? || action.Heartbeat? || action.SaveTick?
    requires action.SaveTick? && action.p != p ==> !Saves(sys.processes[action.p].host, action.writeOk)
    ensures p in Next(sys, action).processes && Follows(Next(sys, action), Next(sys, action).processes[p])
  {
    hide ProcessSound, Follows, ExactlyOnce;
    if action.p == p {
      StepKeepsEverything(sys, action);
    } else {
      SoundnessIgnoresProcesses(sys, Next(sys, action));
    }
  }

  lemma QueueingFollows(sys: System, p: nat, command: Command)
    requires Sound(sys) && Enabled(sys, Enqueue(command)) && p in sys.processes && Follows(sys, sys.processes[p])
    ensures Follows(Next(sys, Enqueue(command)), sys.processes[p])
  {
    EnqueuedAdds(sys.queue, command);
    assert ProcessSound(sys, sys.processes[p]);
  }

  lemma RereadingFollows(sys: System, q: nat, p: nat, readOk: bool)
    requires Enabled(sys, Reload(q, readOk)) && p in sys.processes && Follows(sys, sys.processes[p])
    requires q == p ==> !ReloadReplaces(sys.processes[p].host, sys.stored, readOk)
    ensures Follows(Next(sys, Reload(q, readOk)), Next(sys, Reload(q, readOk)).processes[p])
  {
  }

  // MARK: Runs joined

  lemma NoSteps(sys: System)
    ensures IsRun(sys, []) && After(sys, []) == sys && TakesOversFollow(sys, [])
  {
  }

  lemma OneStep(sys: System, a: Action, rest: seq<Action>)
    requires Enabled(sys, a) && IsRun(Next(sys, a), rest)
    ensures IsRun(sys, [a] + rest) && After(sys, [a] + rest) == After(Next(sys, a), rest)
    ensures TakesOversFollow(sys, [a] + rest) <==> TakesOverByTheRule(sys, a) && TakesOversFollow(Next(sys, a), rest)
  {
    hide Next, Enabled, TakesOverByTheRule;
    assert ([a] + rest)[1..] == rest && ([a] + rest)[0] == a;
  }

  lemma JustOne(sys: System, a: Action)
    requires Enabled(sys, a)
    ensures IsRun(sys, [a]) && After(sys, [a]) == Next(sys, a)
  {
    hide Next, Enabled;
    NoSteps(Next(sys, a));
    assert [a] + [] == [a];
    OneStep(sys, a, []);
  }

  lemma OthersTakeNothingOver(sys: System, a: Action)
    requires !a.Acquire?
    ensures TakesOverByTheRule(sys, a)
  {
  }

  lemma {:induction false} RunsJoin(sys: System, a: seq<Action>, b: seq<Action>)
    requires IsRun(sys, a) && IsRun(After(sys, a), b)
    ensures IsRun(sys, a + b) && After(sys, a + b) == After(After(sys, a), b)
    decreases a
  {
    hide Next, Enabled;
    if a == [] {
      assert a + b == b;
    } else {
      RunsJoin(Next(sys, a[0]), a[1..], b);
      assert (a + b)[1..] == a[1..] + b && (a + b)[0] == a[0];
    }
  }
}
