// Whole runs of the sync coordinator: commands one after another, with the engine's batches, reports
// and account changes in between.
module SyncRuns {
  import opened Text
  import opened SyncCoordinator

  /**
   * `built` is what was staged when the batch was built, `tickets` numbers each staging and `answered`
   * lists those reported: an observer's notes. `checked` is a stage command between asking for the
   * account and staging, `owner` the account the staged changes are bound to.
   */
  datatype State = State(
    staged: map<string, Change>, pending: set<Pending>, running: bool, sending: bool, batch: Option<Batch>,
    built: map<string, Change>, tickets: map<string, nat>, next: nat, answered: seq<nat>,
    account: nat, checked: Option<(seq<Change>, nat)>, owner: nat)

  datatype Step =
    | Start(restored: set<Pending>)
    | Check(changes: seq<Change>, expected: nat)
    | StageChecked
    | BeginSend
    | BuildBatch
    | Sent(report: Report)
    | EndSend
    | AccountChange(account: nat)
    | Stop

  /** Commands run one at a time; a send and the account query of a stage command take a while. */
  predicate Busy(s: State) {
    s.sending || s.checked.Some?
  }

  predicate Distinct(names: seq<string>) {
    forall i, j :: 0 <= i < j < |names| ==> names[i] != names[j]
  }

  /** A report is about the records of its batch. */
  predicate Fits(report: Report, batch: Batch) {
    && (forall n <- report.saved + report.failedSaves :: n in batch.saves)
    && (forall n <- report.deleted + report.failedDeletes :: n in batch.deletes)
  }

  predicate Enabled(s: State, step: Step) {
    match step
    case Start(_) => !Busy(s)
    case Check(changes, _) => !Busy(s) && s.running && DistinctNames(changes)
    case StageChecked => s.checked.Some? && s.running
    case BeginSend => !Busy(s) && s.running
    case BuildBatch => s.sending
    case Sent(report) => s.sending && s.batch.Some? && Fits(report, s.batch.value)
    case EndSend => s.sending
    case AccountChange(_) => s.running
    case Stop => !Busy(s)
  }

  function Ticketed(tickets: map<string, nat>, changes: seq<Change>, next: nat): map<string, nat> {
    if changes == [] then tickets
    else
      var n := |changes| - 1;
      Ticketed(tickets, changes[..n], next)[changes[n].name := next + n]
  }

  function TicketsOf(tickets: map<string, nat>, answers: seq<Answer>): seq<nat>
    requires forall a <- answers :: a.change.name in tickets
  {
    seq(|answers|, i requires 0 <= i < |answers| => tickets[answers[i].change.name])
  }

  function Succeeded(report: Report): set<Pending> {
    (set n <- report.saved :: Pending(Save, n)) + (set n <- report.deleted :: Pending(Delete, n))
  }

  function AfterReport(s: State, report: Report): State
    requires s.tickets.Keys == s.staged.Keys && Named(s.staged)
  {
    var answers := Answers(s.staged, Listed(report));
    var left := Unanswered(s.staged, Listed(report));
    AnswersAreStaged(s.staged, Listed(report));
    s.(staged := left, pending := s.pending - Succeeded(report) - Withdrawn(answers), batch := None, built := map[],
       tickets := map n <- s.tickets | n in left :: s.tickets[n],
       answered := s.answered + TicketsOf(s.tickets, answers))
  }

  function Next(s: State, step: Step): State
    requires Enabled(s, step) && s.tickets.Keys == s.staged.Keys && Named(s.staged)
  {
    match step
    case Start(restored) => s.(staged := map[], tickets := map[], pending := restored, running := true)
    case Check(changes, expected) => if expected == s.account then s.(checked := Some((changes, expected))) else s
    case StageChecked =>
      var (changes, expected) := s.checked.value;
      s.(staged := Staged(s.staged, changes), pending := PendingAfter(s.pending, changes),
         tickets := Ticketed(s.tickets, changes, s.next), next := s.next + |changes|, checked := None,
           owner := expected)
    case BeginSend => s.(sending := true)
    case BuildBatch => s.(batch := Some(Built(s.staged, s.pending)), built := s.staged)
    case Sent(report) => AfterReport(s, report)
    case EndSend => s.(sending := false, batch := None, built := map[])
    case AccountChange(account) => s.(staged := map[], tickets := map[], pending := {}, account := account)
    case Stop => s.(staged := map[], tickets := map[], pending := {}, running := false)
  }

  // MARK: What every state keeps

  predicate Named(staged: map<string, Change>) {
    forall n <- staged :: staged[n].name == n
  }

  /** Nothing is pending for a staged record but what is staged. */
  predicate Agree(staged: map<string, Change>, pending: set<Pending>) {
    forall p <- pending :: p.name in staged ==> staged[p.name].op == p.op
  }

  /** A batch is what was staged when it was built, and nothing staged since is other than that. */
  predicate BatchIsStaged(s: State) {
    s.batch.Some? ==> (
      && (forall n <- s.staged :: n in s.built && s.built[n] == s.staged[n])
      && (forall n <- s.batch.value.saves ::
        n in s.built && s.built[n] == s.batch.value.saves[n] && s.built[n].op == Save)
      && (forall n <- s.batch.value.deletes :: n in s.built ==> s.built[n].op == Delete))
  }

  predicate Numbered(s: State) {
    && s.tickets.Keys == s.staged.Keys
    && (forall n <- s.tickets :: s.tickets[n] < s.next && s.tickets[n] !in s.answered)
    && (forall n <- s.tickets, m <- s.tickets :: s.tickets[n] == s.tickets[m] ==> n == m)
    && (forall i :: 0 <= i < |s.answered| ==> s.answered[i] < s.next)
    && (forall i, j :: 0 <= i < j < |s.answered| ==> s.answered[i] != s.answered[j])
  }

  predicate Sound(s: State) {
    && Named(s.staged) && Agree(s.staged, s.pending) && BatchIsStaged(s) && Numbered(s)
    && (s.batch.Some? ==> s.sending) && !(s.sending && s.checked.Some?)
    && (s.checked.Some? ==> DistinctNames(s.checked.value.0))
  }

  /** One kind of change per record in a command. */
  predicate OneOp(changes: seq<Change>) {
    forall i, j :: 0 <= i < j < |changes| && changes[i].name == changes[j].name ==> changes[i].op == changes[j].op
  }

  lemma {:induction false} StagedIs(staged: map<string, Change>, changes: seq<Change>)
    ensures forall c <- changes :: c.name in Staged(staged, changes)
    ensures forall n :: n in Staged(staged, changes) <==> n in staged || exists c <- changes :: c.name == n
    ensures forall n <- Staged(staged, changes) ::
      (n in staged && Staged(staged, changes)[n] == staged[n] && forall c <- changes :: c.name != n)
      || (Staged(staged, changes)[n] in changes && Staged(staged, changes)[n].name == n)
  {
    if changes != [] {
      var n := |changes| - 1;
      StagedIs(staged, changes[..n]);
      assert changes == changes[..n] + [changes[n]];
    }
  }

  lemma InAdditions(changes: seq<Change>, p: Pending)
    ensures p in Additions(changes) <==> exists c <- changes :: Pending(c.op, c.name) == p
    ensures p in Removals(changes) <==> exists c <- changes :: c.name == p.name
  {
    if exists c <- changes :: c.name == p.name {
      var c :| c in changes && c.name == p.name;
      assert p.op.Save? || p.op.Delete?;
      assert p.op in {Save, Delete} && p == Pending(p.op, c.name);
    }
  }

  /**
   * Staging leaves only what is staged pending exactly when the command has one kind of change for
   * each of its records.
   */
  lemma StagingAgreesExactlyWithOneOp(staged: map<string, Change>, pending: set<Pending>, changes: seq<Change>)
    requires Named(staged) && Agree(staged, pending)
    ensures Agree(Staged(staged, changes), PendingAfter(pending, changes)) <==> OneOp(changes)
    ensures Named(Staged(staged, changes))
  {
    StagedIs(staged, changes);
    var after := Staged(staged, changes);
    hide Staged;
    if OneOp(changes) {
      forall p | p in PendingAfter(pending, changes) && p.name in after ensures after[p.name].op == p.op {
        StagedOpIs(staged, pending, changes, p);
      }
    } else {
      var i, j :| 0 <= i < j < |changes| && changes[i].name == changes[j].name && changes[i].op != changes[j].op;
      var name := changes[i].name;
      InAdditions(changes, Pending(changes[i].op, name));
      InAdditions(changes, Pending(changes[j].op, name));
      assert changes[i] in changes && changes[j] in changes;
    }
  }

  lemma StagedOpIs(staged: map<string, Change>, pending: set<Pending>, changes: seq<Change>, p: Pending)
    requires Agree(staged, pending) && OneOp(changes)
    requires p in PendingAfter(pending, changes) && p.name in Staged(staged, changes)
    ensures Staged(staged, changes)[p.name].op == p.op
  {
    StagedIs(staged, changes);
    InAdditions(changes, p);
    var now := Staged(staged, changes)[p.name];
    hide Staged, PendingAfter, Additions, Removals;
    assert p in Additions(changes) || (p in pending && p !in Removals(changes)) by {
      PendingIs(pending, changes, p);
    }
    if p in Additions(changes) {
      var c :| c in changes && Pending(c.op, c.name) == p;
      assert now in changes;
      var i :| 0 <= i < |changes| && changes[i] == c;
      var j :| 0 <= j < |changes| && changes[j] == now;
    }
  }

  lemma PendingIs(pending: set<Pending>, changes: seq<Change>, p: Pending)
    ensures p in PendingAfter(pending, changes) <==>
      p in Additions(changes) || (p in pending && p !in Removals(changes))
  {
  }

  lemma {:induction false} TicketedIs(tickets: map<string, nat>, changes: seq<Change>, next: nat)
    requires (forall n <- tickets :: tickets[n] < next) && forall n <- tickets, m <- tickets ::
      tickets[n] == tickets[m] ==> n == m
    ensures var after := Ticketed(tickets, changes, next);
      && (forall n :: n in after <==> n in tickets || exists c <- changes :: c.name == n)
      && (forall n <- after :: after[n] < next + |changes|)
      && (forall n <- after :: after[n] < next ==> n in tickets && tickets[n] == after[n])
      && (forall n <- after, m <- after :: after[n] == after[m] ==> n == m)
  {
    if changes != [] {
      var n := |changes| - 1;
      TicketedIs(tickets, changes[..n], next);
      assert changes == changes[..n] + [changes[n]];
    }
  }

  lemma StageKeepsNumbered(s: State)
    requires Sound(s) && Enabled(s, StageChecked)
    ensures Numbered(Next(s, StageChecked))
  {
    var (changes, _) := s.checked.value;
    StagedIs(s.staged, changes);
    TicketedIs(s.tickets, changes, s.next);
    hide Staged, Ticketed;
    var after := Next(s, StageChecked);
    assert after.tickets.Keys == after.staged.Keys;
    forall n | n in after.tickets ensures after.tickets[n] !in s.answered {
      if after.tickets[n] < s.next {
        assert s.tickets[n] == after.tickets[n];
      }
    }
  }

  // MARK: Answers

  lemma {:induction false} AnswersAreStaged(staged: map<string, Change>, outcomes: seq<Outcome>)
    requires Named(staged)
    ensures forall a <- Answers(staged, outcomes) ::
      && a.change.name in staged && staged[a.change.name] == a.change
      && Outcome(a.kind, a.change.name) in outcomes
    ensures forall n :: n in Unanswered(staged, outcomes) <==> n in staged && forall o <- outcomes :: o.name != n
    ensures forall n <- Unanswered(staged, outcomes) :: Unanswered(staged, outcomes)[n] == staged[n]
    ensures forall a <- Answers(staged, outcomes) :: a.change.name !in Unanswered(staged, outcomes)
    decreases outcomes
  {
    if outcomes != [] {
      var left := staged - {outcomes[0].name};
      AnswersAreStaged(left, outcomes[1..]);
      assert outcomes == [outcomes[0]] + outcomes[1..];
      if outcomes[0].name !in staged {
        assert left == staged;
      }
    }
  }

  /** No record is answered twice by one report, whatever it lists. */
  lemma {:induction false} AnswersAreDistinct(staged: map<string, Change>, outcomes: seq<Outcome>)
    requires Named(staged)
    ensures forall i, j :: 0 <= i < j < |Answers(staged, outcomes)| ==>
      Answers(staged, outcomes)[i].change.name != Answers(staged, outcomes)[j].change.name
    decreases outcomes
  {
    if outcomes != [] {
      AnswersAreDistinct(staged - {outcomes[0].name}, outcomes[1..]);
      AnswersAreStaged(staged - {outcomes[0].name}, outcomes[1..]);
      if outcomes[0].name in staged {
        var rest := Answers(staged - {outcomes[0].name}, outcomes[1..]);
        forall j | 0 <= j < |rest| ensures rest[j].change.name != outcomes[0].name {
          assert rest[j] in rest;
        }
      } else {
        assert staged - {outcomes[0].name} == staged;
      }
    }
  }

  predicate Truthful(s: State, a: Answer)
    requires s.batch.Some?
  {
    var n := a.change.name;
    && n in s.built && s.built[n] == a.change
    && (a.kind == Saved || a.kind == SaveFailed ==>
      n in s.batch.value.saves && s.batch.value.saves[n] == a.change && a.change.op == Save)
    && (a.kind == Deleted || a.kind == DeleteFailed ==> n in s.batch.value.deletes && a.change.op == Delete)
  }

  /**
   * Every reported save, deletion or failure names the change that was staged when the batch was
   * built, and is about a change of that kind.
   */
  lemma AnswersAreTrue(s: State, report: Report)
    requires Sound(s) && Enabled(s, Sent(report))
    ensures forall a <- Answers(s.staged, Listed(report)) :: Truthful(s, a)
  {
    AnswersAreStaged(s.staged, Listed(report));
    forall a | a in Answers(s.staged, Listed(report)) ensures Truthful(s, a) {
      OutcomeFits(report, s.batch.value, a.kind, a.change.name);
    }
  }

  lemma OutcomeFits(report: Report, batch: Batch, kind: Kind, name: string)
    requires Fits(report, batch) && Outcome(kind, name) in Listed(report)
    ensures kind == Saved || kind == SaveFailed ==> name in batch.saves
    ensures kind == Deleted || kind == DeleteFailed ==> name in batch.deletes
  {
    var names :=
      match kind
      case Saved => report.saved
      case Deleted => report.deleted
      case SaveFailed => report.failedSaves
      case DeleteFailed => report.failedDeletes;
    assert name in names;
    assert forall n <- report.saved :: n in report.saved + report.failedSaves;
    assert forall n <- report.deleted :: n in report.deleted + report.failedDeletes;
  }

  /** A change that failed is not tried again by the engine: nothing is pending for its record. */
  lemma FailedIsWithdrawn(s: State, report: Report, a: Answer)
    requires Sound(s) && Enabled(s, Sent(report)) && a in Answers(s.staged, Listed(report))
    requires a.kind == SaveFailed || a.kind == DeleteFailed
    ensures forall op :: Pending(op, a.change.name) !in Next(s, Sent(report)).pending
  {
    AnswersAreTrue(s, report);
    AnswersAreStaged(s.staged, Listed(report));
    var op := if a.kind == SaveFailed then Save else Delete;
    assert Truthful(s, a) && Pending(op, a.change.name) in Withdrawn(Answers(s.staged, Listed(report)));
    assert forall p <- s.pending :: p.name == a.change.name ==> p.op == op;
  }

  predicate IsNamed(report: Report, n: string) {
    n in report.saved || n in report.deleted || n in report.failedSaves || n in report.failedDeletes
  }

  lemma NamedIn(kind: Kind, names: seq<string>, n: string)
    ensures n in names <==> exists o <- Outcomes(kind, names) :: o.name == n
  {
    var outcomes := Outcomes(kind, names);
    if n in names {
      var i :| 0 <= i < |names| && names[i] == n;
      assert outcomes[i] in outcomes;
    }
  }

  lemma ListedAreNamed(report: Report, n: string)
    ensures IsNamed(report, n) <==> exists o <- Listed(report) :: o.name == n
  {
    NamedIn(Saved, report.saved, n);
    NamedIn(Deleted, report.deleted, n);
    NamedIn(SaveFailed, report.failedSaves, n);
    NamedIn(DeleteFailed, report.failedDeletes, n);
    hide Outcomes;
    var a, b := Outcomes(Saved, report.saved), Outcomes(Deleted, report.deleted);
    var c, d := Outcomes(SaveFailed, report.failedSaves), Outcomes(DeleteFailed, report.failedDeletes);
    assert forall o :: o in a + b + c + d <==> o in a || o in b || o in c || o in d;
  }

  lemma {:induction false} AllNamedAreAnswered(staged: map<string, Change>, outcomes: seq<Outcome>, n: string)
    requires n in staged && exists o <- outcomes :: o.name == n
    ensures exists a <- Answers(staged, outcomes) :: a.change == staged[n]
    decreases outcomes
  {
    if outcomes[0].name == n {
      var answer := Answer(outcomes[0].kind, staged[n]);
      assert Answers(staged, outcomes)[0] == answer;
    } else {
      var o :| o in outcomes && o.name == n;
      assert o in outcomes[1..];
      AllNamedAreAnswered(staged - {outcomes[0].name}, outcomes[1..], n);
      if outcomes[0].name !in staged {
        assert staged - {outcomes[0].name} == staged;
      }
    }
  }

  /**
   * A report settles exactly the records it names: each that is still staged is answered and no
   * longer staged, a success is no longer pending, and all others are as they were.
   */
  lemma ReportsSettleTheirRecords(s: State, report: Report, n: string)
    requires Sound(s) && Enabled(s, Sent(report))
    ensures var after := Next(s, Sent(report));
      && (n in after.staged <==> n in s.staged && !IsNamed(report, n))
      && (n in after.staged ==> after.staged[n] == s.staged[n])
      && (n in s.staged && IsNamed(report, n) ==>
        exists a <- Answers(s.staged, Listed(report)) :: a.change == s.staged[n])
      && (n in report.saved ==> Pending(Save, n) !in after.pending)
      && (n in report.deleted ==> Pending(Delete, n) !in after.pending)
      && (!IsNamed(report, n) ==> forall op :: Pending(op, n) in after.pending <==> Pending(op, n) in s.pending)
      && |after.answered| == |s.answered| + |Answers(s.staged, Listed(report))|
  {
    AnswersAreStaged(s.staged, Listed(report));
    ListedAreNamed(report, n);
    if n in s.staged && IsNamed(report, n) {
      AllNamedAreAnswered(s.staged, Listed(report), n);
    }
    hide Answers, Unanswered, Listed, IsNamed;
    forall op | !IsNamed(report, n) ensures Pending(op, n) in Next(s, Sent(report)).pending <==>
      Pending(op, n) in s.pending {
      UnnamedStaysPending(s, report, Pending(op, n));
    }
  }

  lemma UnnamedStaysPending(s: State, report: Report, p: Pending)
    requires Named(s.staged) && !IsNamed(report, p.name)
    ensures p !in Succeeded(report) && p !in Withdrawn(Answers(s.staged, Listed(report)))
  {
    AnswersAreStaged(s.staged, Listed(report));
    ListedAreNamed(report, p.name);
    hide Answers, Listed;
  }

  lemma ReportKeepsNumbered(s: State, report: Report)
    requires Sound(s) && Enabled(s, Sent(report))
    ensures Numbered(Next(s, Sent(report)))
  {
    var answers := Answers(s.staged, Listed(report));
    AnswersAreStaged(s.staged, Listed(report));
    AnswersAreDistinct(s.staged, Listed(report));
    assert s.tickets.Keys == s.staged.Keys;
    hide Answers, Unanswered, Listed, Named, Agree, BatchIsStaged, Numbered, TicketsOf, Succeeded, Withdrawn;
    var after := Next(s, Sent(report));
    assert after.tickets.Keys == after.staged.Keys;
    AnsweringKeepsNumbered(s, answers, after);
  }

  lemma AnsweringKeepsNumbered(s: State, answers: seq<Answer>, after: State)
    requires Numbered(s) && forall a <- answers :: a.change.name in s.tickets
    requires forall i, j :: 0 <= i < j < |answers| ==> answers[i].change.name != answers[j].change.name
    requires after.next == s.next && after.answered == s.answered + TicketsOf(s.tickets, answers)
    requires after.tickets.Keys == after.staged.Keys
    requires forall n <- after.tickets ::
      n in s.tickets && after.tickets[n] == s.tickets[n] && forall a <- answers :: a.change.name != n
    ensures Numbered(after)
  {
    TicketsAreGivenOnce(s, answers);
    hide TicketsOf;
  }

  /** The tickets of answers about different records are different, and new; the others are not among them. */
  lemma TicketsAreGivenOnce(s: State, answers: seq<Answer>)
    requires Numbered(s) && forall a <- answers :: a.change.name in s.tickets
    requires forall i, j :: 0 <= i < j < |answers| ==> answers[i].change.name != answers[j].change.name
    ensures var given := TicketsOf(s.tickets, answers);
      && (forall i :: 0 <= i < |given| ==> given[i] < s.next && given[i] !in s.answered)
      && (forall i, j :: 0 <= i < j < |given| ==> given[i] != given[j])
      && (forall n <- s.tickets :: (forall a <- answers :: a.change.name != n) ==> s.tickets[n] !in given)
  {
    var given := TicketsOf(s.tickets, answers);
    forall i | 0 <= i < |given|
      ensures given[i] == s.tickets[answers[i].change.name] && answers[i].change.name in s.tickets {
      assert answers[i] in answers;
    }
  }

  // MARK: Runs

  lemma BuildKeeps(s: State)
    requires Sound(s) && Enabled(s, BuildBatch)
    ensures Sound(Next(s, BuildBatch))
  {
    var batch := Built(s.staged, s.pending);
    forall n | n in batch.deletes && n in s.staged ensures s.staged[n].op == Delete {
      assert Pending(Delete, n) in s.pending;
    }
  }

  lemma SentKeeps(s: State, report: Report)
    requires Sound(s) && Enabled(s, Sent(report))
    ensures Sound(Next(s, Sent(report)))
  {
    ReportKeepsNumbered(s, report);
    AnswersAreStaged(s.staged, Listed(report));
    hide Answers, Unanswered, Listed, Numbered;
  }

  lemma StageKeeps(s: State)
    requires Sound(s) && Enabled(s, StageChecked)
    ensures Sound(Next(s, StageChecked))
  {
    StageKeepsNumbered(s);
    StagingAgreesExactlyWithOneOp(s.staged, s.pending, s.checked.value.0);
    assert OneOp(s.checked.value.0);
    hide Staged, PendingAfter, Ticketed, Numbered, OneOp;
  }

  lemma StepKeepsSound(s: State, step: Step)
    requires Sound(s) && Enabled(s, step)
    ensures Sound(Next(s, step))
  {
    match step {
      case StageChecked => StageKeeps(s);
      case BuildBatch => BuildKeeps(s);
      case Sent(report) => SentKeeps(s, report);
      case _ =>
    }
  }

  ghost predicate IsRun(s: State, steps: seq<Step>)
    requires Sound(s)
    decreases steps
  {
    steps == [] || (
      && Enabled(s, steps[0])
      && (StepKeepsSound(s, steps[0]); IsRun(Next(s, steps[0]), steps[1..])))
  }

  ghost function After(s: State, steps: seq<Step>): State
    requires Sound(s) && IsRun(s, steps)
    decreases steps
  {
    if steps == [] then s
    else
      StepKeepsSound(s, steps[0]);
      After(Next(s, steps[0]), steps[1..])
  }

  /**
   * Over every run, each staging is answered at most once, and what is still staged has not been
   * answered; start, stop and an account change leave nothing to answer.
   */
  lemma {:induction false} EachStagingIsAnsweredOnce(s: State, steps: seq<Step>)
    requires Sound(s) && IsRun(s, steps)
    ensures var after := After(s, steps);
      && Sound(after)
      && (forall i, j :: 0 <= i < j < |after.answered| ==> after.answered[i] != after.answered[j])
      && (forall n <- after.staged :: n in after.tickets && after.tickets[n] !in after.answered)
    ensures forall step: Step ::
      (step.Start? || step.Stop? || step.AccountChange?) && Enabled(After(s, steps), step) ==>
      Next(After(s, steps), step).staged == map[]
    decreases steps
  {
    if steps != [] {
      StepKeepsSound(s, steps[0]);
      EachStagingIsAnsweredOnce(Next(s, steps[0]), steps[1..]);
    }
  }

  // MARK: What goes right

  /** A report that all of a command's changes succeeded. */
  ghost predicate IsAllDone(changes: seq<Change>, report: Report) {
    && report.failedSaves == [] && report.failedDeletes == []
    && (forall n :: n in report.saved <==> exists c <- changes :: c.name == n && c.op == Save)
    && (forall n :: n in report.deleted <==> exists c <- changes :: c.name == n && c.op == Delete)
  }

  /** The steps from a command to its report. */
  function Whole(account: nat, changes: seq<Change>, report: Report): seq<Step> {
    [Check(changes, account), StageChecked, BeginSend, BuildBatch, Sent(report), EndSend]
  }

  function AfterStaging(s: State, changes: seq<Change>): State {
    s.(staged := Staged(s.staged, changes), pending := PendingAfter(s.pending, changes),
       tickets := Ticketed(s.tickets, changes, s.next), next := s.next + |changes|, owner := s.account)
  }

  function AfterBuilding(s: State, changes: seq<Change>): State {
    var staged := AfterStaging(s, changes);
    staged.(sending := true, batch := Some(Built(staged.staged, staged.pending)), built := staged.staged)
  }

  lemma {:induction false} StagedCount(changes: seq<Change>)
    requires DistinctNames(changes)
    ensures |Staged(map[], changes)| == |changes|
    ensures forall c <- changes :: c.name in Staged(map[], changes) && Staged(map[], changes)[c.name] == c
    ensures forall n <- Staged(map[], changes) :: exists c <- changes :: c.name == n
  {
    if changes != [] {
      var n := |changes| - 1;
      StagedCount(changes[..n]);
      assert changes == changes[..n] + [changes[n]];
      var before := Staged(map[], changes[..n]);
      forall c | c in changes[..n] ensures c.name != changes[n].name {
        var i :| 0 <= i < n && changes[..n][i] == c;
        assert changes[i].name != changes[n].name;
      }
      assert Staged(map[], changes) == before[changes[n].name := changes[n]];
      hide Staged;
      assert before[changes[n].name := changes[n]].Keys == before.Keys + {changes[n].name};
    }
  }

  lemma {:induction false} AnswersCount(staged: map<string, Change>, outcomes: seq<Outcome>)
    ensures |Answers(staged, outcomes)| + |Unanswered(staged, outcomes)| == |staged|
    decreases outcomes
  {
    if outcomes != [] {
      var left := staged - {outcomes[0].name};
      AnswersCount(left, outcomes[1..]);
      if outcomes[0].name in staged {
        assert staged.Keys == left.Keys + {outcomes[0].name};
      } else {
        assert left == staged;
      }
    }
  }

  /** Everything is staged, and pending as what it is. */
  lemma StagingTakesAll(s: State, changes: seq<Change>)
    requires s.staged == map[] && s.pending == {} && DistinctNames(changes)
    ensures var after := AfterStaging(s, changes);
      && |after.staged| == |changes|
      && (forall c <- changes :: c.name in after.staged && after.staged[c.name] == c)
      && (forall n <- after.staged :: exists c <- changes :: c.name == n)
      && (forall p :: p in after.pending <==> exists c <- changes :: p == Pending(c.op, c.name))
  {
    StagedCount(changes);
    hide Staged, Ticketed;
  }

  /** The batch has all saves and all deletions. */
  lemma BatchTakesAll(s: State, changes: seq<Change>)
    requires s.staged == map[] && s.pending == {} && DistinctNames(changes)
    ensures var batch := AfterBuilding(s, changes).batch.value;
      && (forall n :: n in batch.saves <==> exists c <- changes :: c.name == n && c.op == Save)
      && (forall n :: n in batch.deletes <==> exists c <- changes :: c.name == n && c.op == Delete)
      && (forall c <- changes :: c.op == Save ==> c.name in batch.saves && batch.saves[c.name] == c)
  {
    StagingTakesAll(s, changes);
    hide AfterStaging;
    var after := AfterStaging(s, changes);
    forall c | c in changes ensures
      && Pending(c.op, c.name) in after.pending && c.name in after.staged && after.staged[c.name] == c
    {
    }
  }

  lemma ReportFitsTheBatch(s: State, changes: seq<Change>, report: Report)
    requires s.staged == map[] && s.pending == {} && DistinctNames(changes) && IsAllDone(changes, report)
    ensures var s4 := AfterBuilding(s, changes); Enabled(s4, Sent(report))
  {
    BatchTakesAll(s, changes);
    hide Built, AfterStaging;
    assert report.saved + report.failedSaves == report.saved && report.deleted + report.failedDeletes == report.deleted;
  }

  lemma ReportSettlesAll(s4: State, changes: seq<Change>, report: Report)
    requires Sound(s4) && Enabled(s4, Sent(report)) && IsAllDone(changes, report)
    requires |s4.staged| == |changes| && forall n <- s4.staged :: exists c <- changes :: c.name == n
    requires forall p <- s4.pending :: exists c <- changes :: p == Pending(c.op, c.name)
    ensures var after := Next(s4, Sent(report));
      after.staged == map[] && after.pending == {} && |after.answered| == |s4.answered| + |changes|
  {
    var after := Next(s4, Sent(report));
    forall n ensures n !in after.staged {
      StagedIsSettled(s4, changes, report, n);
    }
    forall p | p in s4.pending ensures p !in after.pending {
      PendingIsSettled(s4, changes, report, p);
    }
    assert after.staged == map[];
    AnswersCount(s4.staged, Listed(report));
    assert after.pending <= s4.pending;
    hide Answers, Unanswered, Listed, Succeeded, Withdrawn, Sound, Enabled;
  }

  lemma StagedIsSettled(s4: State, changes: seq<Change>, report: Report, n: string)
    requires Sound(s4) && Enabled(s4, Sent(report)) && IsAllDone(changes, report)
    requires n in s4.staged ==> exists c <- changes :: c.name == n
    ensures n !in Next(s4, Sent(report)).staged
  {
    ReportsSettleTheirRecords(s4, report, n);
    hide Next, Enabled, Sound;
  }

  lemma PendingIsSettled(s4: State, changes: seq<Change>, report: Report, p: Pending)
    requires Sound(s4) && Enabled(s4, Sent(report)) && IsAllDone(changes, report)
    requires exists c <- changes :: p == Pending(c.op, c.name)
    ensures p !in Next(s4, Sent(report)).pending
  {
    ReportsSettleTheirRecords(s4, report, p.name);
    hide Next, Enabled, Sound;
  }

  lemma NoSteps(s: State)
    requires Sound(s)
    ensures IsRun(s, []) && After(s, []) == s
  {
  }

  lemma OneMore(s: State, step: Step, rest: seq<Step>)
    requires Sound(s) && Enabled(s, step) && Sound(Next(s, step)) && IsRun(Next(s, step), rest)
    ensures IsRun(s, [step] + rest) && After(s, [step] + rest) == After(Next(s, step), rest)
  {
    assert s.tickets.Keys == s.staged.Keys && Named(s.staged);
    hide Sound, Next, Enabled;
    assert ([step] + rest)[1..] == rest && ([step] + rest)[0] == step;
  }

  lemma ThreeMore(s: State, a: Step, b: Step, c: Step, rest: seq<Step>)
    requires Sound(s) && Enabled(s, a) && Enabled(Next(s, a), b) && Sound(Next(s, a)) && Sound(Next(Next(s, a), b))
    requires Enabled(Next(Next(s, a), b), c) && Sound(Next(Next(Next(s, a), b), c))
    requires IsRun(Next(Next(Next(s, a), b), c), rest)
    ensures IsRun(s, [a, b, c] + rest) && After(s, [a, b, c] + rest) == After(Next(Next(Next(s, a), b), c), rest)
  {
    assert s.tickets.Keys == s.staged.Keys && Named(s.staged);
    var s1 := Next(s, a);
    assert s1.tickets.Keys == s1.staged.Keys && Named(s1.staged);
    var s2 := Next(s1, b);
    assert s2.tickets.Keys == s2.staged.Keys && Named(s2.staged);
    hide Sound, Next, Enabled, IsRun, After;
    OneMore(s2, c, rest);
    OneMore(s1, b, [c] + rest);
    OneMore(s, a, [b] + ([c] + rest));
    assert [a] + ([b] + ([c] + rest)) == [a, b, c] + rest;
  }

  lemma WholeIs(account: nat, changes: seq<Change>, report: Report)
    ensures [Check(changes, account), StageChecked, BeginSend] + ([BuildBatch, Sent(report), EndSend] + [])
      == Whole(account, changes, report)
  {
  }

  lemma FirstThree(s: State, changes: seq<Change>)
    requires Sound(s) && s.running && !Busy(s) && DistinctNames(changes)
    ensures s.checked.None?
    ensures var a, b, c := Check(changes, s.account), StageChecked, BeginSend;
      && Enabled(s, a) && Sound(Next(s, a)) && Enabled(Next(s, a), b) && Sound(Next(Next(s, a), b))
      && Enabled(Next(Next(s, a), b), c) && Sound(Next(Next(Next(s, a), b), c))
      && Next(Next(Next(s, a), b), c) == AfterStaging(s, changes).(sending := true)
  {
    var s1, s2 := s.(checked := Some((changes, s.account))), AfterStaging(s, changes);
    assert Enabled(s, Check(changes, s.account)) && Next(s, Check(changes, s.account)) == s1;
    StepKeepsSound(s, Check(changes, s.account));
    assert Enabled(s1, StageChecked) && Next(s1, StageChecked) == s2;
    StepKeepsSound(s1, StageChecked);
    assert Enabled(s2, BeginSend) && Next(s2, BeginSend) == s2.(sending := true);
    StepKeepsSound(s2, BeginSend);
  }

  lemma LastTwo(s4: State, report: Report)
    requires Sound(s4) && Enabled(s4, Sent(report)) && s4.checked.None? && s4.running
    ensures var s5 := Next(s4, Sent(report));
      && Sound(s5) && Enabled(s5, EndSend) && Sound(Next(s5, EndSend))
      && Next(s5, EndSend) == s5.(sending := false, batch := None, built := map[])
      && Next(s5, EndSend).running && !Busy(Next(s5, EndSend))
  {
    StepKeepsSound(s4, Sent(report));
    StepKeepsSound(Next(s4, Sent(report)), EndSend);
    hide Answers, Unanswered, Listed, Succeeded, Withdrawn;
  }

  lemma BatchIsBuilt(s: State, changes: seq<Change>)
    requires s.checked.None? && s.running
    requires Sound(AfterStaging(s, changes).(sending := true))
    ensures var s3, s4 := AfterStaging(s, changes).(sending := true), AfterBuilding(s, changes);
      && Enabled(s3, BuildBatch) && Next(s3, BuildBatch) == s4 && Sound(s4)
      && s4.answered == s.answered && s4.checked.None? && s4.running
      && s4.staged == AfterStaging(s, changes).staged && s4.pending == AfterStaging(s, changes).pending
  {
    StepKeepsSound(AfterStaging(s, changes).(sending := true), BuildBatch);
    hide Staged, PendingAfter, Ticketed, Built, Sound;
  }

  lemma LastThree(s: State, changes: seq<Change>, report: Report)
    requires s.running && s.checked.None? && s.staged == map[] && s.pending == {}
    requires DistinctNames(changes) && IsAllDone(changes, report)
    requires Sound(AfterStaging(s, changes).(sending := true))
    ensures var s3 := AfterStaging(s, changes).(sending := true);
      && Enabled(s3, BuildBatch) && Sound(Next(s3, BuildBatch))
      && var s4 := Next(s3, BuildBatch);
        && Enabled(s4, Sent(report)) && Sound(Next(s4, Sent(report)))
        && Enabled(Next(s4, Sent(report)), EndSend) && Sound(Next(Next(s4, Sent(report)), EndSend))
        && var after := Next(Next(s4, Sent(report)), EndSend);
          && after.staged == map[] && after.pending == {} && !Busy(after) && after.running
          && |after.answered| == |s.answered| + |changes|
  {
    hide *;
    BatchIsBuilt(s, changes);
    ReportFitsTheBatch(s, changes, report);
    StagingTakesAll(s, changes);
    ReportSettlesAll(AfterBuilding(s, changes), changes, report);
    LastTwo(AfterBuilding(s, changes), report);
  }

  /**
   * A command goes through: from any idle coordinator with nothing staged or pending, all its
   * changes are in the next batch, saves with what they save, and when all have succeeded each has
   * been answered once and nothing is left staged or pending.
   */
  lemma CommandsGoThrough(s: State, changes: seq<Change>, report: Report)
    requires Sound(s) && s.running && !Busy(s) && s.staged == map[] && s.pending == {}
    requires DistinctNames(changes) && IsAllDone(changes, report)
    ensures IsRun(s, Whole(s.account, changes, report))
    ensures var after := After(s, Whole(s.account, changes, report));
      && after.staged == map[] && after.pending == {} && !Busy(after) && after.running
      && |after.answered| == |s.answered| + |changes|
  {
    hide Next, Enabled, IsRun, After, AfterStaging, AfterBuilding, Whole, Agree, BatchIsStaged, IsAllDone, Named;
    FirstThree(s, changes);
    LastThree(s, changes, report);
    var s3 := AfterStaging(s, changes).(sending := true);
    var s6 := Next(Next(Next(s3, BuildBatch), Sent(report)), EndSend);
    NoSteps(s6);
    ThreeMore(s3, BuildBatch, Sent(report), EndSend, []);
    ThreeMore(s, Check(changes, s.account), StageChecked, BeginSend, [BuildBatch, Sent(report), EndSend] + []);
    WholeIs(s.account, changes, report);
  }

  // MARK: What goes wrong

  /** The staged changes are bound to the account that is signed in. */
  predicate OneAccount(s: State) {
    s.staged == map[] || s.owner == s.account
  }

  /**
   * Every step keeps staged changes with their own account, but for one: staging goes by an account
   * that was checked a moment ago, and is right exactly if that is still the one, or nothing is staged.
   */
  lemma AccountsStayApart(s: State, step: Step)
    requires Sound(s) && OneAccount(s) && Enabled(s, step)
    ensures OneAccount(Next(s, step)) <==> StagesForItsOwn(s, step)
  {
    if step.Sent? {
      AnswersAreStaged(s.staged, Listed(step.report));
      hide Answers, Unanswered, Listed;
    }
  }

  /** What the account must be for a staging to be right. */
  predicate StagesForItsOwn(s: State, step: Step)
    requires Sound(s) && Enabled(s, step)
  {
    step.StageChecked? ==> Next(s, step).staged == map[] || s.checked.value.1 == s.account
  }

  ghost predicate AlwaysOneAccount(s: State, steps: seq<Step>)
    requires Sound(s) && IsRun(s, steps)
    decreases steps
  {
    OneAccount(s) && (steps == [] || (StepKeepsSound(s, steps[0]); AlwaysOneAccount(Next(s, steps[0]), steps[1..])))
  }

  ghost predicate AllStageForTheirOwn(s: State, steps: seq<Step>)
    requires Sound(s) && IsRun(s, steps)
    decreases steps
  {
    steps == [] || (
      && StagesForItsOwn(s, steps[0])
      && (StepKeepsSound(s, steps[0]); AllStageForTheirOwn(Next(s, steps[0]), steps[1..])))
  }

  /**
   * Over a whole run no account ever gets another's changes if and only if none signed in between a
   * check and its staging.
   */
  lemma {:induction false} AccountsStayApartThroughout(s: State, steps: seq<Step>)
    requires Sound(s) && OneAccount(s) && IsRun(s, steps)
    ensures AlwaysOneAccount(s, steps) <==> AllStageForTheirOwn(s, steps)
    decreases steps
  {
    assert s.tickets.Keys == s.staged.Keys && Named(s.staged);
    hide Sound, Next, Enabled, OneAccount, StagesForItsOwn;
    if steps != [] {
      StepKeepsSound(s, steps[0]);
      AccountsStayApart(s, steps[0]);
      if OneAccount(Next(s, steps[0])) {
        AccountsStayApartThroughout(Next(s, steps[0]), steps[1..]);
      }
    }
  }

  /** What was checked is still so. */
  predicate CheckHolds(s: State) {
    s.checked.Some? ==> s.checked.value.1 == s.account
  }

  /** Nobody signs in while a command is between its check and its staging. */
  ghost predicate NobodySignsInBetween(s: State, steps: seq<Step>)
    requires Sound(s) && IsRun(s, steps)
    decreases steps
  {
    steps == [] || (
      && (steps[0].AccountChange? ==> s.checked.None?)
      && (StepKeepsSound(s, steps[0]); NobodySignsInBetween(Next(s, steps[0]), steps[1..])))
  }

  /**
   * A command for another account than the one signed in is not staged, and while nobody signs in
   * between a check and its staging, what is staged is always the signed-in account's.
   */
  lemma {:induction false} ChecksKeepAccountsApart(s: State, steps: seq<Step>)
    requires Sound(s) && OneAccount(s) && CheckHolds(s) && IsRun(s, steps) && NobodySignsInBetween(s, steps)
    ensures AllStageForTheirOwn(s, steps) && AlwaysOneAccount(s, steps)
    ensures forall changes: seq<Change>, expected: nat ::
      Enabled(s, Check(changes, expected)) && expected != s.account ==>
      Next(s, Check(changes, expected)) == s
    decreases steps
  {
    assert s.tickets.Keys == s.staged.Keys && Named(s.staged);
    if steps != [] {
      StepKeepsSound(s, steps[0]);
      assert CheckHolds(Next(s, steps[0])) && StagesForItsOwn(s, steps[0]) by {
        hide Sound, Built, Staged, PendingAfter, Ticketed, AfterReport;
      }
      AccountsStayApart(s, steps[0]);
      hide Sound, Enabled, OneAccount, StagesForItsOwn, CheckHolds;
      ChecksKeepAccountsApart(Next(s, steps[0]), steps[1..]);
    }
  }

  /**
   * A start has what the last engine left pending, a stop and another account have nothing, and nothing
   * stays staged.
   */
  lemma StartsAndStopsClear(s: State, step: Step)
    requires Sound(s) && Enabled(s, step) && (step.Start? || step.Stop? || step.AccountChange?)
    ensures var after := Next(s, step);
      && after.staged == map[] && after.pending == (if step.Start? then step.restored else {})
      && after.running == (step.Start? || step.AccountChange?)
      && after.account == (if step.AccountChange? then step.account else s.account) && after.answered == s.answered
  {
  }

  const IDLE := State(map[], {}, true, false, None, map[], map[], 0, [], 1, None, 1)

  /** The account can change between the check and the staging, and the changes are then staged for the new one. */
  lemma SwitchDuringStaging(change: Change)
    ensures Sound(IDLE) && OneAccount(IDLE)
    ensures var steps := [Check([change], 1), AccountChange(2), StageChecked];
      IsRun(IDLE, steps) && change.name in After(IDLE, steps).staged && !OneAccount(After(IDLE, steps))
  {
    var steps := [Check([change], 1), AccountChange(2), StageChecked];
    var s1 := Next(IDLE, steps[0]);
    var s2 := Next(s1, steps[1]);
    assert OneOp([change]);
    StepKeepsSound(IDLE, steps[0]);
    StepKeepsSound(s1, steps[1]);
    StepKeepsSound(s2, steps[2]);
    var s3 := Next(s2, steps[2]);
    assert steps[1..][1..][1..] == [] && steps[1..][1..] == [StageChecked]
      && steps[1..] == [AccountChange(2), StageChecked];
    assert [change][..0] == [] && Staged(map[], [change]) == map[change.name := change];
    hide Next, Sound, Enabled, OneAccount;
    assert IsRun(s3, []) && IsRun(s2, [StageChecked]) && IsRun(s1, steps[1..]);
    assert After(s2, [StageChecked]) == s3 && After(s1, steps[1..]) == s3;
  }
}
