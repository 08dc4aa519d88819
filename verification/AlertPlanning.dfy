// How src/host/mcp_host.rs plans an edit on a snapshot that may be old, and what the runtime does
// with the plan when it gets to it.
module AlertPlanning {
  import opened Text
  import opened AlertEngine

  const MAX_ALERTS: nat := 500

  /** What an edit asks for. A target is a text that may not be a number. */
  datatype EditRequest = EditRequest(
    alertId: nat, crossesAbove: Option<bool>, target: Option<Option<real>>,
    currency: Option<Currency>, frequency: Option<Frequency>, note: Option<string>)

  datatype PlanError = Unavailable | NotFound | UnsupportedEdit | InvalidTarget | Conflict
  datatype UpdatePlan = NoChange | Change(alert: PriceAlert, base: PriceAlert) | Refuse(error: PlanError)

  function OrElse<T>(given: Option<T>, current: T): T {
    if given.Some? then given.value else current
  }

  /** The condition the alert editor makes of an alert's own, with what the request changes. */
  function EditedCondition(current: Condition, request: EditRequest): Option<Condition> {
    match current
    case RisesBy(percent, reference, _) =>
      if percent > 0.0 then Some(RisesBy(percent, reference, reference * (1.0 + percent / 100.0))) else None
    case FallsBy(percent, reference, _) =>
      if percent > 0.0 then Some(FallsBy(percent, reference, reference * (1.0 - percent / 100.0))) else None
    case UnsupportedCondition(_) => None
    case _ =>
      var number := if request.target.Some? then request.target.value else Some(current.level);
      if number.None? || number.value <= 0.0 then None
      else if OrElse(request.crossesAbove, current.CrossesAbove?) then Some(CrossesAbove(number.value))
      else Some(CrossesBelow(number.value))
  }

  /** A message of nothing but whitespace is no message. */
  function EditedMessage(message: Option<string>): Option<string> {
    if message.Some? && Trim(message.value) == "" then None else message
  }

  function PlanUpdate(loaded: bool, alerts: seq<PriceAlert>, request: EditRequest): UpdatePlan {
    if !loaded then Refuse(Unavailable)
    else
      match Find(alerts, request.alertId)
      case None => Refuse(NotFound)
      case Some(existing) => PlanEdit(alerts, existing, request)
  }

  function PlanEdit(alerts: seq<PriceAlert>, existing: PriceAlert, request: EditRequest): UpdatePlan {
    var percentage := existing.condition.RisesBy? || existing.condition.FallsBy?;
    if existing.condition.Target().None? then Refuse(UnsupportedEdit)
    else if percentage && (request.crossesAbove.Some? || request.target.Some? || request.currency.Some?)
      then Refuse(UnsupportedEdit)
    else
      match EditedCondition(existing.condition, request)
      case None => Refuse(InvalidTarget)
      case Some(condition) =>
        var currency, frequency := OrElse(request.currency, existing.currency),
          OrElse(request.frequency, existing.frequency);
        var note := OrElse(request.note, existing.note);
        var settingsChanged := condition != existing.condition || currency != existing.currency
          || frequency != existing.frequency;
        var state :=
          if existing.state == Paused then Paused
          else if existing.state == Triggered && !settingsChanged then Triggered
          else Active;
        var alert := existing.(condition := condition, currency := currency, frequency := frequency, note := note,
                               webhookMessage := EditedMessage(existing.webhookMessage), state := state);
        if !settingsChanged && note == existing.note && state == existing.state then NoChange
        else if HasTwin(alerts, alert) then Refuse(Conflict)
        else Change(alert, existing)
  }

  /** The queued form of a plan: it applies only to the alert it was planned from. */
  function EditCommand(id: nat, createdAt: int, plan: UpdatePlan, baseline: Option<real>): Command
    requires plan.Change?
  {
    Command(id, createdAt, Some(Unchanged(plan.base)), Save(plan.alert, baseline))
  }

  function CreateCommand(id: nat, createdAt: int, alert: PriceAlert, baseline: Option<real>): Command {
    Command(id, createdAt, Some(Create(MAX_ALERTS)), Save(alert, baseline))
  }

  // MARK: Creates

  /**
   * A queued create adds its alert exactly when, at that moment, its id is unused, no alert is
   * like it and there is room; otherwise the alerts stay as they are and the reason is kept.
   */
  lemma CreateAddsOrRefuses(s: Snapshot, id: nat, createdAt: int, alert: PriceAlert, baseline: Option<real>, nowMs: int)
    requires id !in s.processed
    ensures var after := Apply(s, CreateCommand(id, createdAt, alert, baseline), nowMs);
      if Find(s.alerts, alert.id).None? && !HasTwin(s.alerts, alert) && |s.alerts| < MAX_ALERTS
      then after.alerts == s.alerts + [Saved(alert, baseline, nowMs)] && |after.alerts| <= MAX_ALERTS
        && after.rejected == s.rejected
      else
        && after.alerts == s.alerts && |after.rejected| > 0
        && after.rejected[|after.rejected| - 1]
          == Rejection(id, if Find(s.alerts, alert.id).Some? || HasTwin(s.alerts, alert) then Duplicate
            else LimitReached)
  {
    PutAt(s.alerts, Saved(alert, baseline, nowMs));
  }

  // MARK: Edits

  /** A condition as the editor writes it. */
  predicate WellFormed(c: Condition) {
    match c
    case RisesBy(percent, reference, derived) => derived == reference * (1.0 + percent / 100.0)
    case FallsBy(percent, reference, derived) => derived == reference * (1.0 - percent / 100.0)
    case _ => true
  }

  /** Every setting the request does not name is as it was in `current`. */
  predicate KeepsTheRest(request: EditRequest, current: PriceAlert, after: PriceAlert) {
    && after.id == current.id && after.asset == current.asset && after.webhooks == current.webhooks
    && (request.note.None? ==> after.note == current.note)
    && (request.frequency.None? ==> after.frequency == current.frequency)
    && (request.currency.None? ==> after.currency == current.currency)
    && (request.crossesAbove.None? && request.target.None? && WellFormed(current.condition) ==>
      after.condition == current.condition)
    && (after.webhookMessage == current.webhookMessage <==>
      EditedMessage(current.webhookMessage) == current.webhookMessage)
    && (current.state == Paused ==> after.state == Paused)
  }

  /**
   * No lost update: planned on any snapshot and applied to any other, an edit that is accepted
   * changes one alert, and of it only what was asked for: the rest is as the alert stood when the
   * edit was applied, not as the planner saw it. An edit that never blanks a message keeps it.
   */
  lemma AcceptedEditKeepsTheRest(
      planned: seq<PriceAlert>, request: EditRequest, s: Snapshot, id: nat, createdAt: int, baseline: Option<real>,
      nowMs: int)
    requires PlanUpdate(true, planned, request).Change?
    requires id !in s.processed
    requires BrokenPrecondition(s.alerts,
      EditCommand(id, createdAt, PlanUpdate(true, planned, request), baseline)).None?
    ensures Find(s.alerts, request.alertId).Some?
    ensures var i := IndexOf(s.alerts, request.alertId);
      var after := Apply(s, EditCommand(id, createdAt, PlanUpdate(true, planned, request), baseline), nowMs).alerts;
      && |after| == |s.alerts|
      && KeepsTheRest(request, s.alerts[i], after[i])
      && (forall j :: 0 <= j < |after| && j != i ==> after[j] == s.alerts[j])
  {
    hide PlanUpdate, KeepsTheRest, HasTwin, SameDefinition, Saved;
    var plan := PlanUpdate(true, planned, request);
    PlanKeepsTheRest(planned, request, baseline, nowMs);
    PutAt(s.alerts, Saved(plan.alert, baseline, nowMs));
    SameDefinitionKeepsTheRest(request, plan.base, Find(s.alerts, request.alertId).value,
      Saved(plan.alert, baseline, nowMs));
  }

  lemma PlanKeepsTheRest(planned: seq<PriceAlert>, request: EditRequest, baseline: Option<real>, nowMs: int)
    requires PlanUpdate(true, planned, request).Change?
    ensures var plan := PlanUpdate(true, planned, request); var saved := Saved(plan.alert, baseline, nowMs);
      plan.alert.id == request.alertId && saved.id == request.alertId && KeepsTheRest(request, plan.base, saved)
  {
  }

  lemma SameDefinitionKeepsTheRest(request: EditRequest, base: PriceAlert, current: PriceAlert, after: PriceAlert)
    requires SameDefinition(current, base) && KeepsTheRest(request, base, after)
    ensures KeepsTheRest(request, current, after)
  {
  }

  /** What the request asks of a level: its own target and direction, where it names them. */
  predicate IsLevelAsked(request: EditRequest, before: Condition, after: Condition) {
    && (before.CrossesAbove? || before.CrossesBelow?) && (after.CrossesAbove? || after.CrossesBelow?)
    && after.CrossesAbove? == (if request.crossesAbove.Some? then request.crossesAbove.value else before.CrossesAbove?)
    && (if request.target.None? then after.level == before.level else request.target == Some(Some(after.level)))
    && after.level > 0.0
  }

  /** A percentage keeps what it is a percentage of, and its level is worked out anew. */
  predicate IsPercentageKept(request: EditRequest, before: Condition, after: Condition) {
    && request.crossesAbove.None? && request.target.None? && request.currency.None?
    && match before
       case RisesBy(percent, reference, _) =>
         percent > 0.0 && after == RisesBy(percent, reference, reference * (1.0 + percent / 100.0))
       case FallsBy(percent, reference, _) =>
         percent > 0.0 && after == FallsBy(percent, reference, reference * (1.0 - percent / 100.0))
       case _ => false
  }

  /** What is asked for is done, a paused alert stays paused, and one that fired watches again only for new settings. */
  predicate DoesWhatIsAsked(request: EditRequest, before: PriceAlert, after: PriceAlert) {
    var renewed := after.condition != before.condition || after.currency != before.currency
      || after.frequency != before.frequency;
    && (IsLevelAsked(request, before.condition, after.condition)
        || IsPercentageKept(request, before.condition, after.condition))
    && (request.currency.Some? ==> after.currency == request.currency.value)
    && (request.frequency.Some? ==> after.frequency == request.frequency.value)
    && (request.note.Some? ==> after.note == request.note.value)
    && after.state == (if before.state == Paused || (before.state == Triggered && !renewed) then before.state
      else Active)
  }

  /** What is asked for can be: a positive level, or nothing that a percentage cannot change. */
  predicate CanBeAsked(request: EditRequest, condition: Condition) {
    var asksForALevel := request.crossesAbove.Some? || request.target.Some? || request.currency.Some?;
    match condition
    case RisesBy(percent, _, _) => percent > 0.0 && !asksForALevel
    case FallsBy(percent, _, _) => percent > 0.0 && !asksForALevel
    case UnsupportedCondition(_) => false
    case _ =>
      match request.target
      case None => condition.level > 0.0
      case Some(None) => false
      case Some(Some(level)) => level > 0.0
  }

  /** A condition of a newer version, or a level asked of a percentage. */
  predicate IsUnsupported(request: EditRequest, condition: Condition) {
    || condition.UnsupportedCondition?
    || ((condition.RisesBy? || condition.FallsBy?)
        && (request.crossesAbove.Some? || request.target.Some? || request.currency.Some?))
  }

  /** Another alert that is what this one is asked to become. */
  predicate IsThereAlready(request: EditRequest, before: PriceAlert, other: PriceAlert) {
    && other.id != before.id && other.asset == before.asset
    && (IsLevelAsked(request, before.condition, other.condition)
        || IsPercentageKept(request, before.condition, other.condition))
    && other.currency == (if request.currency.Some? then request.currency.value else before.currency)
    && other.frequency == (if request.frequency.Some? then request.frequency.value else before.frequency)
  }

  lemma EditDoesWhatIsAsked(alerts: seq<PriceAlert>, existing: PriceAlert, request: EditRequest)
    requires existing.id == request.alertId
    ensures var plan := PlanEdit(alerts, existing, request);
      && (plan == Refuse(UnsupportedEdit) || plan == Refuse(InvalidTarget) <==>
        !CanBeAsked(request, existing.condition))
      && (plan == Refuse(UnsupportedEdit) <==> IsUnsupported(request, existing.condition))
      && (plan.NoChange? <==> DoesWhatIsAsked(request, existing, existing))
      && (plan == Refuse(Conflict) <==>
            && CanBeAsked(request, existing.condition) && !DoesWhatIsAsked(request, existing, existing)
            && exists other <- alerts :: IsThereAlready(request, existing, other))
      && (plan.Refuse? ==> plan.error == UnsupportedEdit || plan.error == InvalidTarget || plan.error == Conflict)
      && (plan.Change? ==>
            && existing == plan.base
            && DoesWhatIsAsked(request, plan.base, plan.alert) && KeepsTheRest(request, plan.base, plan.alert))
  {
  }

  /**
   * The plan for every request: not found exactly without the alert, refused exactly if what is
   * asked cannot be, no change exactly if the alert already is what is asked, a conflict exactly
   * if another one is, and otherwise the change that does what is asked and keeps the rest.
   */
  lemma PlansDoWhatIsAsked(alerts: seq<PriceAlert>, request: EditRequest)
    ensures var plan, found := PlanUpdate(true, alerts, request), Find(alerts, request.alertId);
      && (plan == Refuse(NotFound) <==> found.None?)
      && (plan == Refuse(UnsupportedEdit) || plan == Refuse(InvalidTarget) <==>
            found.Some? && !CanBeAsked(request, found.value.condition))
      && (plan == Refuse(UnsupportedEdit) <==> found.Some? && IsUnsupported(request, found.value.condition))
      && (plan.NoChange? <==> found.Some? && DoesWhatIsAsked(request, found.value, found.value))
      && (plan == Refuse(Conflict) <==>
            && found.Some? && CanBeAsked(request, found.value.condition)
            && !DoesWhatIsAsked(request, found.value, found.value)
            && exists other <- alerts :: IsThereAlready(request, found.value, other))
      && plan != Refuse(Unavailable)
      && (plan.Change? ==>
            && found == Some(plan.base)
            && DoesWhatIsAsked(request, plan.base, plan.alert) && KeepsTheRest(request, plan.base, plan.alert))
  {
    var found := Find(alerts, request.alertId);
    if found.Some? {
      EditDoesWhatIsAsked(alerts, found.value, request);
    }
  }

  /** An edit is accepted exactly while the alert is still as it was planned from and no other is like the new one. */
  lemma EditIsAcceptedExactly(
    alerts: seq<PriceAlert>, plan: UpdatePlan, id: nat, createdAt: int, baseline: Option<real>
  )
    requires plan.Change? && plan.alert.id == plan.base.id
    ensures BrokenPrecondition(alerts, EditCommand(id, createdAt, plan, baseline)).None? <==>
      var current := Find(alerts, plan.base.id);
      current.Some? && SameDefinition(current.value, plan.base) && !HasTwin(alerts, plan.alert)
  {
  }

  /** A planned change really is one: what would be stored differs from what it was planned from. */
  lemma PlannedChangeIsAChange(planned: seq<PriceAlert>, request: EditRequest, baseline: Option<real>, nowMs: int)
    requires PlanUpdate(true, planned, request).Change?
    ensures var plan := PlanUpdate(true, planned, request);
      !SameDefinition(Saved(plan.alert, baseline, nowMs), plan.base)
  {
  }

  /**
   * Of two edits planned from one state of an alert, the second to arrive is refused: it did not
   * see the first.
   */
  lemma SecondEditFromOneBaseIsRefused(
      planned: seq<PriceAlert>, first: EditRequest, second: EditRequest, s: Snapshot,
      id1: nat, id2: nat, createdAt: int, baseline: Option<real>, nowMs: int)
    requires first.alertId == second.alertId
    requires PlanUpdate(true, planned, first).Change? && PlanUpdate(true, planned, second).Change?
    requires id1 !in s.processed
    requires BrokenPrecondition(s.alerts, EditCommand(id1, createdAt, PlanUpdate(true, planned, first), baseline)).None?
    ensures var after := Apply(s, EditCommand(id1, createdAt, PlanUpdate(true, planned, first), baseline), nowMs);
      BrokenPrecondition(after.alerts, EditCommand(id2, createdAt, PlanUpdate(true, planned, second), baseline))
        == Some(Changed)
  {
    hide PlanUpdate, KeepsTheRest, HasTwin, SameDefinition, Saved;
    var saved := Saved(PlanUpdate(true, planned, first).alert, baseline, nowMs);
    PlannedChangeIsAChange(planned, first, baseline, nowMs);
    PlanKeepsTheRest(planned, first, baseline, nowMs);
    PlanKeepsTheRest(planned, second, baseline, nowMs);
    OneBase(planned, first, second);
    PutAt(s.alerts, saved);
    var i := IndexOf(s.alerts, first.alertId);
    FindAt(s.alerts[i := saved], i);
  }

  lemma OneBase(planned: seq<PriceAlert>, first: EditRequest, second: EditRequest)
    requires first.alertId == second.alertId
    requires PlanUpdate(true, planned, first).Change? && PlanUpdate(true, planned, second).Change?
    ensures PlanUpdate(true, planned, first).base == PlanUpdate(true, planned, second).base
  {
  }

  lemma {:induction false} FindAt(alerts: seq<PriceAlert>, i: nat)
    requires i < |alerts| && forall j :: 0 <= j < i ==> alerts[j].id != alerts[i].id
    ensures Find(alerts, alerts[i].id) == Some(alerts[i])
  {
    if i > 0 {
      assert alerts[1..][i - 1] == alerts[i] && alerts[0].id != alerts[i].id;
      forall j | 0 <= j < i - 1 ensures alerts[1..][j].id != alerts[i].id {
        assert alerts[1..][j] == alerts[j + 1];
      }
      FindAt(alerts[1..], i - 1);
    }
  }
}
