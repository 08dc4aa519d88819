// The price-alert engine of src/model/alert_engine.rs: what applying a queued command does, and
// what is remembered about it. Optimistic edits are planned by src/host/mcp_host.rs.
module AlertEngine {
  import opened Text

  datatype Currency = Usd | Eur | Gbp | Jpy | Chf
  datatype Frequency = Once | EveryTime
  datatype AlertState = Active | Paused | Triggered | Unsupported

  datatype Condition =
    | CrossesAbove(level: real)
    | CrossesBelow(level: real)
    | RisesBy(percent: real, reference: real, derived: real)
    | FallsBy(percent: real, reference: real, derived: real)
    | UnsupportedCondition(tag: string)
  {
    function Target(): Option<real> {
      match this
      case CrossesAbove(level) => Some(level)
      case CrossesBelow(level) => Some(level)
      case RisesBy(_, _, derived) => Some(derived)
      case FallsBy(_, _, derived) => Some(derived)
      case UnsupportedCondition(_) => None
    }

    predicate CrossesUp() {
      CrossesAbove? || RisesBy?
    }

    function ArmedAt(price: real): Option<bool> {
      match Target()
      case Some(target) => Some(if CrossesUp() then price < target else price > target)
      case None => None
    }
  }

  datatype PriceAlert = PriceAlert(
    id: nat, asset: string, condition: Condition, currency: Currency, frequency: Frequency,
    state: AlertState, note: string, webhooks: seq<nat>, webhookMessage: Option<string>,
    armed: bool, previous: Option<real>, fingerprint: Option<string>, updatedAt: int)

  datatype Event = Event(id: nat, alertId: nat, observed: real, target: real, timestampMs: int)
  datatype Owner = Nobody | App | Agent
  datatype Health = Health(owner: Owner, heartbeat: Option<int>)
  datatype RejectReason = Duplicate | LimitReached | Missing | Changed
  datatype Rejection = Rejection(commandId: nat, reason: RejectReason)

  datatype Snapshot = Snapshot(
    revision: nat, alerts: seq<PriceAlert>, history: seq<Event>,
    processed: seq<nat>, rejected: seq<Rejection>, health: Health)

  const EMPTY := Snapshot(0, [], [], [], [], Health(Nobody, None))

  datatype Precondition = Create(maxAlerts: nat) | Unchanged(planned: PriceAlert)

  datatype Payload =
    | Save(alert: PriceAlert, baseline: Option<real>)
    | SetState(id: nat, state: AlertState, resumeAt: Option<real>)
    | Delete(deleted: nat)
    | ClearHistory
    | RequestAuthorization

  datatype Command = Command(id: nat, createdAt: int, precondition: Option<Precondition>, payload: Payload)

  const PROCESSED_COMMAND_LIMIT: nat := 1_000
  const REJECTED_COMMAND_LIMIT: nat := 200

  // MARK: Alerts

  function Find(alerts: seq<PriceAlert>, id: nat): (found: Option<PriceAlert>)
    ensures found.Some? ==> found.value in alerts && found.value.id == id
    ensures found.None? ==> forall a <- alerts :: a.id != id
  {
    if alerts == [] then None
    else if alerts[0].id == id then Some(alerts[0])
    else Find(alerts[1..], id)
  }

  /** Another alert of the same market, condition, currency and frequency. */
  predicate Twins(a: PriceAlert, b: PriceAlert) {
    a.id != b.id && a.asset == b.asset && a.condition == b.condition && a.currency == b.currency
      && a.frequency == b.frequency
  }

  predicate HasTwin(alerts: seq<PriceAlert>, candidate: PriceAlert) {
    exists a <- alerts :: Twins(a, candidate)
  }

  /** What a planned edit goes by: everything a person chose, nothing the runtime moves on its own. */
  predicate SameDefinition(a: PriceAlert, b: PriceAlert) {
    && a.id == b.id && a.asset == b.asset && a.condition == b.condition && a.currency == b.currency
    && a.frequency == b.frequency && a.state == b.state && a.note == b.note
    && a.webhooks == b.webhooks && a.webhookMessage == b.webhookMessage
  }

  /** Replaces the first alert with the same id, or adds one. */
  function Put(alerts: seq<PriceAlert>, alert: PriceAlert): seq<PriceAlert> {
    if alerts == [] then [alert]
    else if alerts[0].id == alert.id then [alert] + alerts[1..]
    else [alerts[0]] + Put(alerts[1..], alert)
  }

  function Without(alerts: seq<PriceAlert>, id: nat): seq<PriceAlert> {
    if alerts == [] then []
    else (if alerts[0].id == id then [] else [alerts[0]]) + Without(alerts[1..], id)
  }

  /** An alert as it is stored by a save at `nowMs`. */
  function Saved(alert: PriceAlert, baseline: Option<real>, nowMs: int): PriceAlert {
    var saved := alert.(updatedAt := nowMs, previous := baseline, fingerprint := None);
    if alert.condition.UnsupportedCondition? then saved.(state := Unsupported, armed := false)
    else if baseline.Some? && alert.condition.ArmedAt(baseline.value).Some?
    then saved.(armed := alert.condition.ArmedAt(baseline.value).value)
    else saved
  }

  function WithState(alert: PriceAlert, state: AlertState, baseline: Option<real>, nowMs: int): PriceAlert {
    var moved := alert.(state := state, updatedAt := nowMs);
    if state != Active then moved
    else if baseline.Some? && alert.condition.ArmedAt(baseline.value).Some?
    then moved.(previous := baseline, armed := alert.condition.ArmedAt(baseline.value).value)
    else moved.(previous := baseline)
  }

  // MARK: Commands

  function Touch(revision: nat): nat {
    (revision + 1) % 0x1_0000_0000_0000_0000
  }

  function ApplyPayload(s: Snapshot, payload: Payload, nowMs: int): Snapshot {
    match payload
    case Save(alert, baseline) =>
      s.(alerts := Put(s.alerts, Saved(alert, baseline, nowMs)), revision := Touch(s.revision))
    case SetState(id, state, baseline) =>
      (match Find(s.alerts, id)
       case Some(alert) => s.(alerts := Put(s.alerts, WithState(alert, state, baseline, nowMs)),
         revision := Touch(s.revision))
       case None => s)
    case Delete(id) => s.(alerts := Without(s.alerts, id), revision := Touch(s.revision))
    case ClearHistory => s.(history := [], revision := Touch(s.revision))
    case RequestAuthorization => s
  }

  /** Why a command must not be applied to the alerts as they are now, if it must not. */
  function BrokenPrecondition(alerts: seq<PriceAlert>, command: Command): Option<RejectReason> {
    match (command.precondition, command.payload)
    case (Some(Create(maxAlerts)), Save(alert, _)) =>
      if Find(alerts, alert.id).Some? || HasTwin(alerts, alert) then Some(Duplicate)
      else if |alerts| >= maxAlerts then Some(LimitReached)
      else None
    case (Some(Unchanged(planned)), Save(alert, _)) =>
      (match Find(alerts, alert.id)
       case None => Some(Missing)
       case Some(current) =>
         if !SameDefinition(current, planned) then Some(Changed)
         else if HasTwin(alerts, alert) then Some(Duplicate)
         else None)
    case _ => None
  }

  lemma {:induction false} PutFinds(alerts: seq<PriceAlert>, alert: PriceAlert, id: nat)
    ensures Find(Put(alerts, alert), id) == if id == alert.id then Some(alert) else Find(alerts, id)
  {
    if alerts != [] && alerts[0].id != alert.id {
      PutFinds(alerts[1..], alert, id);
    }
  }

  lemma {:induction false} WithoutFinds(alerts: seq<PriceAlert>, gone: nat, id: nat)
    ensures Find(Without(alerts, gone), id) == if id == gone then None else Find(alerts, id)
  {
    if alerts != [] {
      WithoutFinds(alerts[1..], gone, id);
      var rest := Without(alerts[1..], gone);
      assert ([alerts[0]] + rest)[1..] == rest && [] + rest == rest;
    }
  }

  /** Everything a person set, and what the runtime compares the next price with. */
  predicate IsAsSaved(stored: PriceAlert, alert: PriceAlert, baseline: Option<real>, nowMs: int) {
    && SameDefinition(stored.(state := alert.state), alert)
    && stored.state == (if alert.condition.UnsupportedCondition? then Unsupported else alert.state)
    && stored.previous == baseline && stored.fingerprint == None && stored.updatedAt == nowMs
  }

  /** Pausing keeps the last price; resuming starts from the price at hand. */
  predicate IsMoved(stored: PriceAlert, before: PriceAlert, state: AlertState, baseline: Option<real>, nowMs: int) {
    && SameDefinition(stored.(state := before.state), before)
    && stored.state == state && stored.updatedAt == nowMs
    && stored.previous == (if state == Active then baseline else before.previous)
    && stored.fingerprint == before.fingerprint && (state != Active ==> stored.armed == before.armed)
  }

  lemma SaveIsAsSaved(alert: PriceAlert, baseline: Option<real>, nowMs: int)
    ensures IsAsSaved(Saved(alert, baseline, nowMs), alert, baseline, nowMs)
    ensures Saved(alert, baseline, nowMs).id == alert.id
  {
  }

  lemma MoveIsMoved(alert: PriceAlert, state: AlertState, baseline: Option<real>, nowMs: int)
    ensures IsMoved(WithState(alert, state, baseline, nowMs), alert, state, baseline, nowMs)
    ensures WithState(alert, state, baseline, nowMs).id == alert.id
  {
  }

  /**
   * What a request that goes through does, told by what is found under each id afterwards: it
   * saves, moves or removes its own alert, or empties the history, and leaves the rest alone.
   */
  lemma RequestsActOnTheirAlert(s: Snapshot, payload: Payload, nowMs: int, id: nat)
    ensures var before, after := Find(s.alerts, id), Find(ApplyPayload(s, payload, nowMs).alerts, id);
      match payload
      case Save(alert, baseline) =>
        if id == alert.id then after.Some? && IsAsSaved(after.value, alert, baseline, nowMs) else after == before
      case SetState(moved, state, baseline) =>
        if id == moved && before.Some? then after.Some? && IsMoved(after.value, before.value, state, baseline, nowMs)
        else after == before
      case Delete(gone) => after == if id == gone then None else before
      case _ => after == before
    ensures var after := ApplyPayload(s, payload, nowMs);
      && after.history == (if payload.ClearHistory? then [] else s.history)
      && after.health == s.health && after.processed == s.processed && after.rejected == s.rejected
  {
    hide Put, Without, Saved, WithState, IsAsSaved, IsMoved;
    match payload {
      case Save(alert, baseline) =>
        SaveIsAsSaved(alert, baseline, nowMs);
        PutFinds(s.alerts, Saved(alert, baseline, nowMs), id);
      case SetState(moved, state, baseline) =>
        if Find(s.alerts, moved).Some? {
          var alert := Find(s.alerts, moved).value;
          MoveIsMoved(alert, state, baseline, nowMs);
          PutFinds(s.alerts, WithState(alert, state, baseline, nowMs), id);
        }
      case Delete(gone) => WithoutFinds(s.alerts, gone, id);
      case ClearHistory =>
      case RequestAuthorization =>
    }
  }

  /** The newest `limit` of a list that grows at the end. */
  function Newest<T>(items: seq<T>, limit: nat): (kept: seq<T>)
    ensures |kept| <= limit && |kept| <= |items| && kept == items[|items| - |kept|..]
  {
    if |items| > limit then items[|items| - limit..] else items
  }

  /** Applies a request once: a command id that is still remembered is ignored. */
  function Apply(s: Snapshot, command: Command, nowMs: int): Snapshot {
    if command.id in s.processed then s
    else
      var handled :=
        match BrokenPrecondition(s.alerts, command)
        case Some(reason) => s.(rejected :=
          Newest(s.rejected + [Rejection(command.id, reason)], REJECTED_COMMAND_LIMIT))
        case None => ApplyPayload(s, command.payload, nowMs);
      handled.(processed := Newest(s.processed + [command.id], PROCESSED_COMMAND_LIMIT),
        revision := Touch(handled.revision))
  }

  /** What the runtime does to its snapshot: commands, judging quotes, and its heartbeat. */
  datatype Op =
    | Request(command: Command, nowMs: int)
    | Evaluate(events: seq<Event>, judged: seq<PriceAlert>)
    | Beat(health: Health)

  function Step(s: Snapshot, op: Op): Snapshot {
    match op
    case Request(command, nowMs) => Apply(s, command, nowMs)
    case Evaluate(events, judged) => s.(alerts := judged, history := s.history + events, revision := Touch(s.revision))
    case Beat(health) => s.(health := health, revision := Touch(s.revision))
  }

  function Replay(s: Snapshot, ops: seq<Op>): Snapshot {
    if ops == [] then s else Step(Replay(s, ops[..|ops| - 1]), ops[|ops| - 1])
  }

  // MARK: Guarded alerts stay distinct and few

  /** One id per alert, and no alert that only repeats another. */
  predicate Distinct(alerts: seq<PriceAlert>) {
    forall i, j :: 0 <= i < j < |alerts| ==> alerts[i].id != alerts[j].id && !Twins(alerts[i], alerts[j])
  }

  /** Judging quotes moves what the runtime keeps; it never changes what an alert is for. */
  predicate OnlyJudged(before: seq<PriceAlert>, after: seq<PriceAlert>) {
    && |before| == |after|
    && forall i :: 0 <= i < |before| ==>
        && (after[i].state == before[i].state || (before[i].state == Active && after[i].state == Triggered))
        && SameDefinition(after[i].(state := before[i].state), before[i])
  }

  /** A save from a planner: it carries a precondition, and its cap is at most `cap`. */
  predicate Guarded(command: Command, cap: nat) {
    command.payload.Save? ==>
      && command.precondition.Some?
      && (command.precondition.value.Create? ==> command.precondition.value.maxAlerts <= cap)
  }

  predicate GuardedOp(s: Snapshot, op: Op, cap: nat) {
    match op
    case Request(command, _) => Guarded(command, cap)
    case Evaluate(_, judged) => OnlyJudged(s.alerts, judged)
    case Beat(_) => true
  }

  predicate GuardedRun(s: Snapshot, ops: seq<Op>, cap: nat) {
    ops == [] || (GuardedRun(s, ops[..|ops| - 1], cap) && GuardedOp(Replay(s, ops[..|ops| - 1]), ops[|ops| - 1], cap))
  }

  function IndexOf(alerts: seq<PriceAlert>, id: nat): (i: nat)
    requires exists a <- alerts :: a.id == id
    ensures i < |alerts| && alerts[i].id == id && forall j :: 0 <= j < i ==> alerts[j].id != id
  {
    if alerts[0].id == id then 0 else 1 + IndexOf(alerts[1..], id)
  }

  lemma {:induction false} PutAt(alerts: seq<PriceAlert>, alert: PriceAlert)
    ensures Find(alerts, alert.id).None? ==> Put(alerts, alert) == alerts + [alert]
    ensures Find(alerts, alert.id).Some? ==>
      var i := IndexOf(alerts, alert.id);
      Put(alerts, alert) == alerts[i := alert] && Find(alerts, alert.id).value == alerts[i]
  {
    if alerts != [] && alerts[0].id != alert.id {
      PutAt(alerts[1..], alert);
      if Find(alerts, alert.id).Some? {
        var i := IndexOf(alerts[1..], alert.id);
        assert [alerts[0]] + alerts[1..][i := alert] == alerts[i + 1 := alert];
      }
    }
  }

  lemma {:induction false} WithoutRemoves(alerts: seq<PriceAlert>, id: nat)
    ensures |Without(alerts, id)| <= |alerts|
    ensures forall a :: a in Without(alerts, id) <==> a in alerts && a.id != id
  {
    if alerts != [] {
      WithoutRemoves(alerts[1..], id);
      assert alerts == [alerts[0]] + alerts[1..];
    }
  }

  lemma {:induction false} WithoutStaysDistinct(alerts: seq<PriceAlert>, id: nat)
    requires Distinct(alerts)
    ensures Distinct(Without(alerts, id))
  {
    if alerts != [] {
      hide Twins;
      var rest := Without(alerts[1..], id);
      WithoutStaysDistinct(alerts[1..], id);
      WithoutRemoves(alerts[1..], id);
      forall j | 0 <= j < |rest| ensures alerts[0].id != rest[j].id && !Twins(alerts[0], rest[j]) {
        assert rest[j] in rest;
      }
    }
  }

  lemma ReplacementStaysDistinct(alerts: seq<PriceAlert>, i: nat, alert: PriceAlert)
    requires Distinct(alerts) && i < |alerts| && alert.id == alerts[i].id && !HasTwin(alerts, alert)
    ensures Distinct(alerts[i := alert])
  {
    forall j | 0 <= j < |alerts| && j != i
      ensures alerts[j].id != alert.id && !Twins(alerts[j], alert) && !Twins(alert, alerts[j]) {
      assert alerts[j] in alerts;
    }
  }

  lemma TwinsIgnoreTheRest(alerts: seq<PriceAlert>, a: PriceAlert, b: PriceAlert)
    requires a.id == b.id && a.asset == b.asset && a.condition == b.condition && a.currency == b.currency
      && a.frequency == b.frequency
    ensures HasTwin(alerts, a) <==> HasTwin(alerts, b)
  {
    if HasTwin(alerts, a) {
      var t :| t in alerts && Twins(t, a);
      assert Twins(t, b);
    }
    if HasTwin(alerts, b) {
      var t :| t in alerts && Twins(t, b);
      assert Twins(t, a);
    }
  }

  lemma SaveStaysDistinct(alerts: seq<PriceAlert>, alert: PriceAlert, saved: PriceAlert)
    requires Distinct(alerts) && !HasTwin(alerts, alert)
    requires saved.id == alert.id && saved.asset == alert.asset && saved.condition == alert.condition
    requires saved.currency == alert.currency && saved.frequency == alert.frequency
    ensures Distinct(Put(alerts, saved))
    ensures |Put(alerts, saved)| == |alerts| + (if Find(alerts, alert.id).Some? then 0 else 1)
  {
    hide Distinct, HasTwin;
    PutAt(alerts, saved);
    TwinsIgnoreTheRest(alerts, alert, saved);
    if Find(alerts, saved.id).Some? {
      ReplacementStaysDistinct(alerts, IndexOf(alerts, saved.id), saved);
    } else {
      AdditionStaysDistinct(alerts, saved);
    }
  }

  lemma AdditionStaysDistinct(alerts: seq<PriceAlert>, alert: PriceAlert)
    requires Distinct(alerts) && Find(alerts, alert.id).None? && !HasTwin(alerts, alert)
    ensures Distinct(alerts + [alert])
  {
    forall j | 0 <= j < |alerts| ensures alerts[j].id != alert.id && !Twins(alerts[j], alert) {
      assert alerts[j] in alerts;
    }
  }

  lemma NoTwinOfItself(alerts: seq<PriceAlert>, id: nat)
    requires Distinct(alerts) && Find(alerts, id).Some?
    ensures !HasTwin(alerts, Find(alerts, id).value)
  {
    var current := Find(alerts, id).value;
    var i :| 0 <= i < |alerts| && alerts[i] == current;
    forall j | 0 <= j < |alerts| ensures !Twins(alerts[j], current) {
      assert Twins(alerts[j], alerts[i]) == Twins(alerts[i], alerts[j]);
    }
  }

  lemma JudgedStaysDistinct(before: seq<PriceAlert>, after: seq<PriceAlert>)
    requires Distinct(before) && OnlyJudged(before, after)
    ensures Distinct(after)
  {
    forall i, j | 0 <= i < j < |after| ensures after[i].id != after[j].id && !Twins(after[i], after[j]) {
      assert before[i].id != before[j].id && !Twins(before[i], before[j]);
      assert SameDefinition(after[i].(state := before[i].state), before[i]);
      assert SameDefinition(after[j].(state := before[j].state), before[j]);
    }
  }

  /** Nothing like the alert is there under another id, and a new one has room. */
  predicate HasPlace(alerts: seq<PriceAlert>, alert: PriceAlert, cap: nat) {
    !HasTwin(alerts, alert) && (Find(alerts, alert.id).Some? || |alerts| < cap)
  }

  /** A save that goes through has a place; its precondition sees to that, if it has one. */
  predicate Fits(s: Snapshot, op: Op, cap: nat) {
    match op
    case Request(command, _) =>
      command.payload.Save? && command.id !in s.processed && BrokenPrecondition(s.alerts, command).None?
      ==> HasPlace(s.alerts, command.payload.alert, cap)
    case _ => true
  }

  predicate FewAndDistinct(s: Snapshot, cap: nat) {
    Distinct(s.alerts) && |s.alerts| <= cap
  }

  lemma GuardedFits(s: Snapshot, op: Op, cap: nat)
    requires GuardedOp(s, op, cap)
    ensures Fits(s, op, cap)
  {
    hide HasTwin, SameDefinition;
  }

  lemma SaveFitsExactly(alerts: seq<PriceAlert>, alert: PriceAlert, saved: PriceAlert, cap: nat)
    requires Distinct(alerts) && |alerts| <= cap
    requires saved.id == alert.id && saved.asset == alert.asset && saved.condition == alert.condition
    requires saved.currency == alert.currency && saved.frequency == alert.frequency
    ensures Distinct(Put(alerts, saved)) && |Put(alerts, saved)| <= cap <==> HasPlace(alerts, alert, cap)
  {
    hide Distinct, HasTwin;
    PutAt(alerts, saved);
    if HasTwin(alerts, alert) {
      TwinStays(alerts, alert, saved);
    } else {
      SaveStaysDistinct(alerts, alert, saved);
    }
  }

  lemma TwinStays(alerts: seq<PriceAlert>, alert: PriceAlert, saved: PriceAlert)
    requires HasTwin(alerts, alert)
    requires saved.id == alert.id && saved.asset == alert.asset && saved.condition == alert.condition
    requires saved.currency == alert.currency && saved.frequency == alert.frequency
    ensures !Distinct(Put(alerts, saved))
  {
    var twin :| twin in alerts && Twins(twin, alert);
    var i :| 0 <= i < |alerts| && alerts[i] == twin;
    PutAt(alerts, saved);
    var after := Put(alerts, saved);
    hide Put;
    var j := if Find(alerts, alert.id).Some? then IndexOf(alerts, alert.id) else |alerts|;
    assert after[i] == twin && after[j] == saved && i != j;
    if i < j {
      assert Twins(after[i], after[j]);
    } else {
      assert Twins(after[j], after[i]);
    }
  }

  lemma FitsExactly(s: Snapshot, op: Op, cap: nat)
    requires FewAndDistinct(s, cap) && (op.Evaluate? ==> OnlyJudged(s.alerts, op.judged))
    ensures FewAndDistinct(Step(s, op), cap) <==> Fits(s, op, cap)
  {
    hide Distinct, HasPlace, Twins, HasTwin, SameDefinition, Put, Find;
    match op
    case Request(command, nowMs) =>
      if command.id !in s.processed && BrokenPrecondition(s.alerts, command).None? {
        PayloadFitsExactly(s, command.payload, nowMs, cap);
      }
    case Evaluate(_, judged) => JudgedStaysDistinct(s.alerts, judged);
    case Beat(_) =>
  }

  lemma PayloadFitsExactly(s: Snapshot, payload: Payload, nowMs: int, cap: nat)
    requires FewAndDistinct(s, cap)
    ensures FewAndDistinct(ApplyPayload(s, payload, nowMs), cap) <==>
      (payload.Save? ==> HasPlace(s.alerts, payload.alert, cap))
  {
    hide Distinct, HasPlace, HasTwin, Twins, SameDefinition, Put;
    match payload
    case Save(alert, baseline) => SaveFitsExactly(s.alerts, alert, Saved(alert, baseline, nowMs), cap);
    case SetState(id, state, baseline) =>
      if Find(s.alerts, id).Some? {
        var current := Find(s.alerts, id).value;
        NoTwinOfItself(s.alerts, id);
        SaveStaysDistinct(s.alerts, current, WithState(current, state, baseline, nowMs));
      }
    case Delete(id) =>
      WithoutRemoves(s.alerts, id);
      WithoutStaysDistinct(s.alerts, id);
    case ClearHistory =>
    case RequestAuthorization =>
  }

  /** Judging, in a run, only judges. */
  predicate JudgedRun(s: Snapshot, ops: seq<Op>) {
    ops == [] || (
      var n := |ops| - 1;
      JudgedRun(s, ops[..n]) && (ops[n].Evaluate? ==> OnlyJudged(Replay(s, ops[..n]).alerts, ops[n].judged)))
  }

  /**
   * Over every run of commands, with preconditions or without, quotes and heartbeats: no two alerts
   * are ever alike or have one id, and there are never more than the cap, if and only if each save
   * that goes through has a place. The alert sheet's saves carry no precondition to see to it.
   */
  lemma {:induction false} RunsStayDistinctExactly(s: Snapshot, ops: seq<Op>, cap: nat)
    requires FewAndDistinct(s, cap) && JudgedRun(s, ops)
    ensures AlwaysFewAndDistinct(s, ops, cap) <==> AllFit(s, ops, cap)
  {
    hide FewAndDistinct, Fits, Step, OnlyJudged;
    if ops != [] {
      var n := |ops| - 1;
      RunsStayDistinctExactly(s, ops[..n], cap);
      if FewAndDistinct(Replay(s, ops[..n]), cap) {
        FitsExactly(Replay(s, ops[..n]), ops[n], cap);
      }
    }
  }

  /** In every state of the run. */
  predicate AlwaysFewAndDistinct(s: Snapshot, ops: seq<Op>, cap: nat) {
    FewAndDistinct(Replay(s, ops), cap) && (ops == [] || AlwaysFewAndDistinct(s, ops[..|ops| - 1], cap))
  }

  predicate AllFit(s: Snapshot, ops: seq<Op>, cap: nat) {
    ops == [] || (AllFit(s, ops[..|ops| - 1], cap) && Fits(Replay(s, ops[..|ops| - 1]), ops[|ops| - 1], cap))
  }

  /** A save of the alert sheet, which asks for nothing. */
  function SheetSave(command: nat, alert: PriceAlert): Op {
    Request(Command(command, 0, None, Save(alert, None)), 0)
  }

  /** Two saves of the alert sheet make two alerts that are alike but for their ids. */
  lemma SheetCanRepeatAnAlert(alert: PriceAlert, id: nat)
    requires id != alert.id
    ensures var ops := [SheetSave(0, alert), SheetSave(1, alert.(id := id))];
      FewAndDistinct(EMPTY, 2) && JudgedRun(EMPTY, ops) && !Distinct(Replay(EMPTY, ops).alerts)
  {
    assert FewAndDistinct(EMPTY, 2);
    SecondSheetSave(alert, id);
    hide *;
    TwoRequests(EMPTY, SheetSave(0, alert), SheetSave(1, alert.(id := id)));
  }

  lemma TwoRequests(s: Snapshot, first: Op, second: Op)
    ensures Replay(s, [first, second]) == Step(Step(s, first), second)
    ensures first.Request? && second.Request? ==> JudgedRun(s, [first, second])
  {
    hide Step, OnlyJudged;
    assert [first, second][..1] == [first] && [first][..0] == [];
    assert Replay(s, []) == s && Replay(s, [first]) == Step(s, first);
    assert JudgedRun(s, []) && (first.Request? ==> JudgedRun(s, [first]));
  }

  lemma SheetSaves(s: Snapshot, command: nat, alert: PriceAlert)
    requires command !in s.processed
    ensures var after := Step(s, SheetSave(command, alert));
      && after.alerts == Put(s.alerts, Saved(alert, None, 0))
      && after.processed == Newest(s.processed + [command], PROCESSED_COMMAND_LIMIT)
  {
    hide Saved, Put, Newest, HasTwin, Find;
    assert BrokenPrecondition(s.alerts, SheetSave(command, alert).command) == None;
  }

  lemma SecondSheetSave(alert: PriceAlert, id: nat)
    requires id != alert.id
    ensures SheetSave(0, alert).Request? && SheetSave(1, alert.(id := id)).Request?
    ensures !Distinct(Step(Step(EMPTY, SheetSave(0, alert)), SheetSave(1, alert.(id := id))).alerts)
  {
    hide Step, Distinct, Put, Saved, Twins, Newest;
    var s, saved, other := Step(EMPTY, SheetSave(0, alert)), Saved(alert, None, 0), alert.(id := id);
    FirstSheetSave(alert);
    SheetSaves(s, 1, other);
    SavedIsATwin(alert, id);
    assert s.alerts[0] == saved && saved in s.alerts;
    SavedTwinStays(s.alerts, other);
  }

  lemma FirstSheetSave(alert: PriceAlert)
    ensures var s := Step(EMPTY, SheetSave(0, alert)); s.alerts == [Saved(alert, None, 0)] && s.processed == [0]
  {
    hide Step, Saved;
    SheetSaves(EMPTY, 0, alert);
    assert [] + [0] == [0];
  }

  lemma SavedIsATwin(alert: PriceAlert, id: nat)
    requires id != alert.id
    ensures Twins(Saved(alert, None, 0), alert.(id := id))
  {
  }

  lemma SavedTwinStays(alerts: seq<PriceAlert>, alert: PriceAlert)
    requires HasTwin(alerts, alert)
    ensures !Distinct(Put(alerts, Saved(alert, None, 0)))
  {
    hide Distinct, Put, HasTwin;
    TwinStays(alerts, alert, Saved(alert, None, 0));
  }

  /**
   * However many planners work from however old a snapshot, guarded saves never make two alerts
   * alike, never give two alerts one id and never take the number of alerts over the cap.
   */
  lemma GuardedRunsStayDistinct(s: Snapshot, ops: seq<Op>, cap: nat)
    requires FewAndDistinct(s, cap) && GuardedRun(s, ops, cap)
    ensures FewAndDistinct(Replay(s, ops), cap)
  {
    GuardedRunFits(s, ops, cap);
    RunsStayDistinctExactly(s, ops, cap);
  }

  lemma {:induction false} GuardedRunFits(s: Snapshot, ops: seq<Op>, cap: nat)
    requires GuardedRun(s, ops, cap)
    ensures AllFit(s, ops, cap) && JudgedRun(s, ops)
  {
    hide Fits, OnlyJudged, Guarded, Step;
    if ops != [] {
      GuardedRunFits(s, ops[..|ops| - 1], cap);
      GuardedFits(Replay(s, ops[..|ops| - 1]), ops[|ops| - 1], cap);
    }
  }

  // MARK: What is remembered of a command

  datatype Outcome = Pending | Applied | Rejected(reason: RejectReason)

  function RejectionOf(rejected: seq<Rejection>, id: nat): Option<RejectReason> {
    if rejected == [] then None
    else if rejected[0].commandId == id then Some(rejected[0].reason)
    else RejectionOf(rejected[1..], id)
  }

  function CommandOutcome(s: Snapshot, id: nat): Outcome {
    match RejectionOf(s.rejected, id)
    case Some(reason) => Rejected(reason)
    case None => if id in s.processed then Applied else Pending
  }

  /** The ids of the commands in a run, in order. */
  function CommandIds(ops: seq<Op>): seq<nat> {
    if ops == [] then []
    else CommandIds(ops[..|ops| - 1]) + (if ops[|ops| - 1].Request? then [ops[|ops| - 1].command.id] else [])
  }

  /** The commands of a run that broke their precondition, in order. */
  function Refused(s: Snapshot, ops: seq<Op>): seq<Rejection> {
    if ops == [] then []
    else Refused(s, ops[..|ops| - 1]) + RefusedBy(Replay(s, ops[..|ops| - 1]), ops[|ops| - 1])
  }

  predicate NoRepeats<T(==)>(items: seq<T>) {
    forall i, j :: 0 <= i < j < |items| ==> items[i] != items[j]
  }

  lemma NewestOfNewest<T>(items: seq<T>, item: T, limit: nat)
    requires limit > 0
    ensures Newest(Newest(items, limit) + [item], limit) == Newest(items + [item], limit)
  {
  }

  /** The refusal a step adds to the run's, if any. */
  function RefusedBy(s: Snapshot, op: Op): seq<Rejection> {
    if !op.Request? then []
    else
      match BrokenPrecondition(s.alerts, op.command)
      case Some(reason) => [Rejection(op.command.id, reason)]
      case None => []
  }

  lemma StepRemembers(s: Snapshot, op: Op)
    requires op.Request? ==> op.command.id !in s.processed
    ensures Step(s, op).processed
      == if op.Request? then Newest(s.processed + [op.command.id], PROCESSED_COMMAND_LIMIT) else s.processed
    ensures Step(s, op).rejected
      == if RefusedBy(s, op) == [] then s.rejected else Newest(s.rejected + RefusedBy(s, op), REJECTED_COMMAND_LIMIT)
  {
    hide HasTwin, SameDefinition, Put, Without, WithState, Saved, Find, Newest;
  }

  lemma {:induction false} RefusalsAreCommands(s: Snapshot, ops: seq<Op>)
    requires NoRepeats(CommandIds(ops))
    ensures forall r <- Refused(s, ops) :: r.commandId in CommandIds(ops)
    ensures forall i, j :: 0 <= i < j < |Refused(s, ops)| ==>
      Refused(s, ops)[i].commandId != Refused(s, ops)[j].commandId
  {
    if ops != [] {
      hide BrokenPrecondition;
      LastIsNew(ops);
      RefusalsAreCommands(s, ops[..|ops| - 1]);
    }
  }

  lemma LastIsNew(ops: seq<Op>)
    requires ops != [] && NoRepeats(CommandIds(ops))
    ensures NoRepeats(CommandIds(ops[..|ops| - 1]))
    ensures ops[|ops| - 1].Request? ==> ops[|ops| - 1].command.id !in CommandIds(ops[..|ops| - 1])
  {
    var ids, all := CommandIds(ops[..|ops| - 1]), CommandIds(ops);
    assert all[..|ids|] == ids;
    forall i, j | 0 <= i < j < |ids| ensures ids[i] != ids[j] {
      assert all[i] == ids[i] && all[j] == ids[j];
    }
    if ops[|ops| - 1].Request? {
      forall i | 0 <= i < |ids| ensures ids[i] != all[|ids|] {
        assert all[i] == ids[i];
      }
    }
  }

  /** A run of new commands leaves exactly the newest ids and the newest refusals. */
  lemma {:induction false} RunRemembers(s: Snapshot, ops: seq<Op>)
    requires s.processed == [] && s.rejected == [] && NoRepeats(CommandIds(ops))
    ensures Replay(s, ops).processed == Newest(CommandIds(ops), PROCESSED_COMMAND_LIMIT)
    ensures Replay(s, ops).rejected == Newest(Refused(s, ops), REJECTED_COMMAND_LIMIT)
  {
    if ops != [] {
      hide Step, BrokenPrecondition, NoRepeats;
      var op, before, sofar := ops[|ops| - 1], ops[..|ops| - 1], Replay(s, ops[..|ops| - 1]);
      LastIsNew(ops);
      RunRemembers(s, before);
      StepRemembers(sofar, op);
      if op.Request? {
        NewestOfNewest(CommandIds(before), op.command.id, PROCESSED_COMMAND_LIMIT);
        if RefusedBy(sofar, op) != [] {
          NewestOfNewest(Refused(s, before), RefusedBy(sofar, op)[0], REJECTED_COMMAND_LIMIT);
        }
      }
      assert Refused(s, ops) == Refused(s, before) + RefusedBy(sofar, op);
    }
  }

  /** The ids of the commands that were not ignored: those not remembered when they came. */
  function TakenIds(s: Snapshot, ops: seq<Op>): seq<nat> {
    if ops == [] then []
    else
      var n := |ops| - 1;
      TakenIds(s, ops[..n]) + if ops[n].Request? && ops[n].command.id !in Replay(s, ops[..n]).processed
        then [ops[n].command.id] else []
  }

  /** After any run, with ids repeated or not, the newest 1000 ids taken are remembered. */
  lemma {:induction false} TakenAreRemembered(s: Snapshot, ops: seq<Op>)
    requires s.processed == []
    ensures Replay(s, ops).processed == Newest(TakenIds(s, ops), PROCESSED_COMMAND_LIMIT)
  {
    if ops != [] {
      hide Step;
      var n := |ops| - 1;
      var before := Replay(s, ops[..n]);
      TakenAreRemembered(s, ops[..n]);
      if ops[n].Request? && ops[n].command.id in before.processed {
        IgnoredExactly(before, ops[n]);
      } else {
        StepRemembers(before, ops[n]);
        if ops[n].Request? {
          NewestOfNewest(TakenIds(s, ops[..n]), ops[n].command.id, PROCESSED_COMMAND_LIMIT);
        }
      }
    }
  }

  lemma IgnoredExactly(s: Snapshot, op: Op)
    requires op.Request?
    ensures Step(s, op) == s <==> op.command.id in s.processed
  {
    hide HasTwin, SameDefinition, Put, Without, WithState, Saved, Find, BrokenPrecondition;
    if op.command.id !in s.processed {
      RevisionMoves(s.revision);
      RevisionMoves(Touch(s.revision));
      hide Touch;
    }
  }

  lemma RevisionMoves(revision: nat)
    ensures Touch(revision) != revision && Touch(Touch(revision)) != revision
  {
  }

  /**
   * A repeated command has no effect exactly while its id is among the newest 1000 that were taken,
   * so an id takes effect again only after a thousand others.
   */
  lemma RepeatsAreIgnored(s: Snapshot, ops: seq<Op>, op: Op)
    requires s.processed == [] && op.Request?
    ensures Step(Replay(s, ops), op) == Replay(s, ops) <==>
      op.command.id in Newest(TakenIds(s, ops), PROCESSED_COMMAND_LIMIT)
  {
    hide Step, Newest, TakenIds;
    TakenAreRemembered(s, ops);
    IgnoredExactly(Replay(s, ops), op);
  }

  lemma {:induction false} EffectsAreFarApart(s: Snapshot, ops: seq<Op>)
    requires s.processed == []
    ensures forall i, j :: 0 <= i < j < |TakenIds(s, ops)| && TakenIds(s, ops)[i] == TakenIds(s, ops)[j] ==>
      j - i > PROCESSED_COMMAND_LIMIT
  {
    if ops != [] {
      hide Step;
      var n := |ops| - 1;
      var before, all := TakenIds(s, ops[..n]), TakenIds(s, ops);
      EffectsAreFarApart(s, ops[..n]);
      TakenAreRemembered(s, ops[..n]);
      if |all| > |before| {
        forall i | 0 <= i < |before| && all[i] == all[|before|] ensures |before| - i > PROCESSED_COMMAND_LIMIT {
          NotAmongNewest(before, i, PROCESSED_COMMAND_LIMIT);
        }
      }
    }
  }

  lemma NotAmongNewest<T>(items: seq<T>, i: nat, limit: nat)
    requires i < |items| && items[i] !in Newest(items, limit)
    ensures |items| - i > limit
  {
    if |items| - i <= limit {
      AmongNewest(items, i, limit);
      assert false;
    }
  }

  lemma AmongNewest<T>(items: seq<T>, i: nat, limit: nat)
    requires i < |items| <= i + limit
    ensures items[i] in Newest(items, limit)
  {
    var kept := Newest(items, limit);
    assert kept[i - (|items| - |kept|)] == items[i];
  }

  lemma {:induction false} RejectionFound(rejected: seq<Rejection>, k: nat)
    requires k < |rejected|
    requires forall i, j :: 0 <= i < j < |rejected| ==> rejected[i].commandId != rejected[j].commandId
    ensures RejectionOf(rejected, rejected[k].commandId) == Some(rejected[k].reason)
  {
    if k > 0 {
      RejectionFound(rejected[1..], k - 1);
      assert rejected[1..][k - 1] == rejected[k] && rejected[0].commandId != rejected[k].commandId;
    }
  }

  lemma {:induction false} RejectionAbsent(rejected: seq<Rejection>, id: nat)
    requires forall r <- rejected :: r.commandId != id
    ensures RejectionOf(rejected, id) == None
  {
    if rejected != [] {
      RejectionAbsent(rejected[1..], id);
    }
  }

  /**
   * A refused command is reported as refused exactly while fewer than 200 commands were refused
   * after it. From then on it is reported as applied, until 1000 commands followed it.
   */
  lemma RefusalIsReportedWhileRecent(s: Snapshot, ops: seq<Op>, k: nat, at: nat)
    requires s.processed == [] && s.rejected == [] && NoRepeats(CommandIds(ops))
    requires k < |Refused(s, ops)| && at < |CommandIds(ops)| && CommandIds(ops)[at] == Refused(s, ops)[k].commandId
    ensures CommandOutcome(Replay(s, ops), Refused(s, ops)[k].commandId) ==
      if |Refused(s, ops)| - 1 - k < REJECTED_COMMAND_LIMIT then Rejected(Refused(s, ops)[k].reason)
      else if |CommandIds(ops)| - 1 - at < PROCESSED_COMMAND_LIMIT then Applied
      else Pending
  {
    hide Step, RefusedBy, CommandIds, Replay, Refused, NoRepeats, Newest;
    RunRemembers(s, ops);
    RefusalsAreCommands(s, ops);
    KeptRejection(Refused(s, ops), k, REJECTED_COMMAND_LIMIT);
    Remembered(CommandIds(ops), at, PROCESSED_COMMAND_LIMIT);
  }

  lemma KeptRejection(all: seq<Rejection>, k: nat, limit: nat)
    requires k < |all|
    requires forall i, j :: 0 <= i < j < |all| ==> all[i].commandId != all[j].commandId
    ensures RejectionOf(Newest(all, limit), all[k].commandId)
      == if |all| - 1 - k < limit then Some(all[k].reason) else None
  {
    var kept := Newest(all, limit);
    var dropped := |all| - |kept|;
    assert forall i :: 0 <= i < |kept| ==> kept[i] == all[dropped + i];
    if k >= dropped {
      RejectionFound(kept, k - dropped);
    } else {
      RejectionAbsent(kept, all[k].commandId);
    }
  }

  lemma Remembered<T>(items: seq<T>, at: nat, limit: nat)
    requires NoRepeats(items) && at < |items|
    ensures items[at] in Newest(items, limit) <==> |items| - 1 - at < limit
  {
    var kept := Newest(items, limit);
    var dropped := |items| - |kept|;
    assert forall i :: 0 <= i < |kept| ==> kept[i] == items[dropped + i];
    if at >= dropped {
      assert kept[at - dropped] == items[at];
    }
  }

  /** An applied command is reported as applied exactly while fewer than 1000 commands followed it. */
  lemma ApplicationIsReportedWhileRecent(s: Snapshot, ops: seq<Op>, at: nat)
    requires s.processed == [] && s.rejected == [] && NoRepeats(CommandIds(ops))
    requires at < |CommandIds(ops)|
    requires forall r <- Refused(s, ops) :: r.commandId != CommandIds(ops)[at]
    ensures CommandOutcome(Replay(s, ops), CommandIds(ops)[at]) ==
      if |CommandIds(ops)| - 1 - at < PROCESSED_COMMAND_LIMIT then Applied else Pending
  {
    RunRemembers(s, ops);
    RejectionAbsent(Replay(s, ops).rejected, CommandIds(ops)[at]);
    Remembered(CommandIds(ops), at, PROCESSED_COMMAND_LIMIT);
  }

  // MARK: A refusal that is reported as applied

  const GONE := PriceAlert(7, "BTC", CrossesAbove(1.0), Usd, Once, Active, "", [], None, false, None, None, 0)

  /** An edit of an alert that was deleted meanwhile. */
  function LateEdit(id: nat): Op {
    Request(Command(id, 0, Some(Unchanged(GONE)), Save(GONE, None)), 0)
  }

  function LateEdits(count: nat): seq<Op> {
    if count == 0 then [] else LateEdits(count - 1) + [LateEdit(count - 1)]
  }

  lemma {:induction false} LateEditsAreRefused(count: nat)
    ensures Replay(EMPTY, LateEdits(count)).alerts == []
    ensures CommandIds(LateEdits(count)) == UpTo(count) && Refused(EMPTY, LateEdits(count)) == Rejections(count)
  {
    hide Step, LateEdit, RefusedBy;
    if count > 0 {
      LateEditsAreRefused(count - 1);
      LateEditIsRefused(Replay(EMPTY, LateEdits(count - 1)), count - 1);
      LastLateEdit(EMPTY, LateEdits(count - 1), LateEdit(count - 1));
    }
  }

  function UpTo(count: nat): (ids: seq<nat>)
    ensures |ids| == count && forall i :: 0 <= i < count ==> ids[i] == i
  {
    if count == 0 then [] else UpTo(count - 1) + [count - 1]
  }

  function Rejections(count: nat): (refused: seq<Rejection>)
    ensures |refused| == count && forall i :: 0 <= i < count ==> refused[i] == Rejection(i, Missing)
  {
    if count == 0 then [] else Rejections(count - 1) + [Rejection(count - 1, Missing)]
  }

  lemma LastLateEdit(s: Snapshot, ops: seq<Op>, op: Op)
    requires op.Request?
    ensures Replay(s, ops + [op]) == Step(Replay(s, ops), op)
      && CommandIds(ops + [op]) == CommandIds(ops) + [op.command.id]
    ensures Refused(s, ops + [op]) == Refused(s, ops) + RefusedBy(Replay(s, ops), op)
  {
    hide Step, RefusedBy;
    assert (ops + [op])[..|ops|] == ops && (ops + [op])[|ops|] == op;
  }

  lemma LateEditIsRefused(s: Snapshot, id: nat)
    requires s.alerts == []
    ensures LateEdit(id).Request? && LateEdit(id).command.id == id
    ensures Step(s, LateEdit(id)).alerts == [] && RefusedBy(s, LateEdit(id)) == [Rejection(id, Missing)]
  {
  }

  /** After 201 refusals the first refused command is reported as applied. */
  lemma RefusalCanBeReportedAsApplied()
    ensures Rejection(0, Missing) in Refused(EMPTY, LateEdits(201))
    ensures CommandOutcome(Replay(EMPTY, LateEdits(201)), 0) == Applied
  {
    LateEditsAreRefused(201);
    hide Replay, Refused, CommandIds, LateEdits, CommandOutcome;
    var ids, refused := CommandIds(LateEdits(201)), Refused(EMPTY, LateEdits(201));
    assert ids[0] == 0 && refused[0] == Rejection(0, Missing);
    RefusalIsReportedWhileRecent(EMPTY, LateEdits(201), 0, 0);
  }
}
