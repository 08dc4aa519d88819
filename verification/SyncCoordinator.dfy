// The sync coordinator: changes staged by serial commands, sent in batches by CloudKit's engine, and
// answered as its reports arrive. See native/swift/Coordinator.swift.
module SyncCoordinator {
  import opened Text

  datatype Op = Save | Delete

  /** One change the core has handed over. */
  datatype Change = Change(name: string, seqno: nat, op: Op, payload: seq<nat>)

  /** What the engine has pending for a record. */
  datatype Pending = Pending(op: Op, name: string)

  datatype Kind = Saved | Deleted | SaveFailed | DeleteFailed
  datatype Outcome = Outcome(kind: Kind, name: string)

  /** What is reported to the core about a change. */
  datatype Answer = Answer(kind: Kind, change: Change)

  /** One report of the engine about a batch. */
  datatype Report = Report(saved: seq<string>, deleted: seq<string>, failedSaves: seq<string>,
    failedDeletes: seq<string>)

  // MARK: Staging

  function Staged(staged: map<string, Change>, changes: seq<Change>): map<string, Change> {
    if changes == [] then staged
    else
      var n := |changes| - 1;
      Staged(staged, changes[..n])[changes[n].name := changes[n]]
  }

  function Removals(changes: seq<Change>): set<Pending> {
    set c <- changes, op <- {Save, Delete} :: Pending(op, c.name)
  }

  function Additions(changes: seq<Change>): set<Pending> {
    set c <- changes :: Pending(c.op, c.name)
  }

  /** Staging again replaces what was pending for the same record. */
  function PendingAfter(pending: set<Pending>, changes: seq<Change>): set<Pending> {
    pending - Removals(changes) + Additions(changes)
  }

  // MARK: Answering

  function Outcomes(kind: Kind, names: seq<string>): (outcomes: seq<Outcome>)
    ensures |outcomes| == |names|
  {
    seq(|names|, i requires 0 <= i < |names| => Outcome(kind, names[i]))
  }

  /** The outcomes in the order in which a report is worked through. */
  function Listed(report: Report): seq<Outcome> {
    Outcomes(Saved, report.saved) + Outcomes(Deleted, report.deleted)
    + Outcomes(SaveFailed, report.failedSaves) + Outcomes(DeleteFailed, report.failedDeletes)
  }

  /** A change is answered once: the first outcome for its record takes it off the staged ones. */
  function Answers(staged: map<string, Change>, outcomes: seq<Outcome>): seq<Answer> {
    if outcomes == [] then []
    else if outcomes[0].name in staged then
      [Answer(outcomes[0].kind, staged[outcomes[0].name])] + Answers(staged - {outcomes[0].name}, outcomes[1..])
    else Answers(staged, outcomes[1..])
  }

  function Unanswered(staged: map<string, Change>, outcomes: seq<Outcome>): map<string, Change> {
    if outcomes == [] then staged else Unanswered(staged - {outcomes[0].name}, outcomes[1..])
  }

  /** The engine does not retry on its own what it has reported as failed. */
  function Withdrawn(answers: seq<Answer>): set<Pending> {
    set a <- answers | a.kind == SaveFailed || a.kind == DeleteFailed ::
      Pending(if a.kind == SaveFailed then Save else Delete, a.change.name)
  }

  /** A batch: the records to save, as staged when it is built, and the records to delete. */
  datatype Batch = Batch(saves: map<string, Change>, deletes: set<string>)

  function Built(staged: map<string, Change>, pending: set<Pending>): Batch {
    Batch(map p <- pending | p.op == Save && p.name in staged && staged[p.name].op == Save :: p.name := staged[p.name],
          set p <- pending | p.op == Delete :: p.name)
  }

  /** A command names each record once. */
  predicate DistinctNames(changes: seq<Change>) {
    forall i, j :: 0 <= i < j < |changes| ==> changes[i].name != changes[j].name
  }

  class Coordinator {
    var staged: map<string, Change>
    var pending: set<Pending>
    var running: bool

    constructor ()
      ensures staged == map[] && pending == {} && !running
    {
      staged, pending, running := map[], {}, false;
    }

    /** A new engine, with what the saved state of the last one had pending. */
    method Start(restored: set<Pending>)
      modifies this
      ensures staged == map[] && pending == restored && running
    {
      staged, pending, running := map[], restored, true;
    }

    method Stage(accountMatches: bool, changes: seq<Change>)
      modifies this
      ensures running == old(running)
      ensures staged == if running && accountMatches then Staged(old(staged), changes) else old(staged)
      ensures pending == if running && accountMatches then PendingAfter(old(pending), changes) else old(pending)
    {
      if !running || !accountMatches {
        return;
      }
      var saves: set<Pending>, removals: set<Pending> := {}, {};
      for i := 0 to |changes|
        invariant staged == Staged(old(staged), changes[..i]) && pending == old(pending) && running == old(running)
        invariant saves == Additions(changes[..i]) && removals == Removals(changes[..i])
      {
        var change := changes[i];
        assert changes[..i + 1] == changes[..i] + [change] && changes[..i + 1][..i] == changes[..i];
        removals := removals + {Pending(Save, change.name), Pending(Delete, change.name)};
        staged := staged[change.name := change];
        saves := saves + {Pending(change.op, change.name)};
        RemovalsGrow(changes[..i], change);
      }
      assert changes[..|changes|] == changes;
      pending := pending - removals;
      pending := pending + saves;
    }

    /** Asks for the record of each pending save, as it is staged now, and takes each pending deletion. */
    method NextBatch() returns (batch: Batch)
      ensures forall n :: n in batch.saves <==> Pending(Save, n) in pending && n in staged && staged[n].op == Save
      ensures forall n <- batch.saves :: batch.saves[n] == staged[n]
      ensures forall n :: n in batch.deletes <==> Pending(Delete, n) in pending
      ensures batch == Built(staged, pending)
    {
      batch := Batch(map[], {});
      var todo := pending;
      while todo != {}
        invariant todo <= pending
        invariant forall n :: n in batch.saves <==>
          Pending(Save, n) in pending && Pending(Save, n) !in todo && n in staged && staged[n].op == Save
        invariant forall n <- batch.saves :: batch.saves[n] == staged[n]
        invariant forall n :: n in batch.deletes <==> Pending(Delete, n) in pending && Pending(Delete, n) !in todo
        decreases todo
      {
        var p :| p in todo;
        todo := todo - {p};
        if p.op == Delete {
          batch := batch.(deletes := batch.deletes + {p.name});
        } else if p.name in staged && staged[p.name].op == Save {
          batch := batch.(saves := batch.saves[p.name := staged[p.name]]);
        }
      }
      BatchIs(staged, pending, batch);
    }

    /** Takes the answered changes off the staged ones, whatever order they are reported in. */
    method TakeAnswers(
      kind: Kind, names: seq<string>, before: seq<Answer>, ghost rest: seq<Outcome>
    ) returns (answers: seq<Answer>)
      modifies this`staged
      ensures staged == Unanswered(old(staged), Outcomes(kind, names))
      ensures answers + Answers(staged, rest) == before + Answers(old(staged), Outcomes(kind, names) + rest)
    {
      answers := before;
      for i := 0 to |names|
        invariant Unanswered(staged, Outcomes(kind, names[i..])) == Unanswered(old(staged), Outcomes(kind, names))
        invariant answers + Answers(staged, Outcomes(kind, names[i..]) + rest) == before
          + Answers(old(staged), Outcomes(kind, names) + rest)
      {
        ghost var now, all := Outcomes(kind, names[i..]), Outcomes(kind, names[i..]) + rest;
        assert now[1..] == Outcomes(kind, names[i + 1..]) && now[0] == Outcome(kind, names[i]);
        assert all[1..] == Outcomes(kind, names[i + 1..]) + rest && all[0] == Outcome(kind, names[i]);
        if names[i] in staged {
          ghost var tail := Answers(staged - {names[i]}, all[1..]);
          assert Answers(staged, all) == [Answer(kind, staged[names[i]])] + tail;
          answers := answers + [Answer(kind, staged[names[i]])];
        } else {
          assert staged - {names[i]} == staged;
        }
        staged := staged - {names[i]};
      }
      assert Outcomes(kind, names[|names|..]) == [] && [] + rest == rest;
    }

    method SentRecordZoneChanges(report: Report) returns (answers: seq<Answer>)
      modifies this
      ensures answers == Answers(old(staged), Listed(report))
      ensures staged == Unanswered(old(staged), Listed(report))
      ensures pending == old(pending) - Withdrawn(answers) && running == old(running)
    {
      hide Answers, Unanswered, Outcomes, Withdrawn;
      ghost var a, b := Outcomes(Saved, report.saved), Outcomes(Deleted, report.deleted);
      ghost var c, d := Outcomes(SaveFailed, report.failedSaves), Outcomes(DeleteFailed, report.failedDeletes);
      answers := TakeAnswers(Saved, report.saved, [], b + c + d);
      answers := TakeAnswers(Deleted, report.deleted, answers, c + d);
      answers := TakeAnswers(SaveFailed, report.failedSaves, answers, d);
      answers := TakeAnswers(DeleteFailed, report.failedDeletes, answers, []);
      pending := pending - Withdrawn(answers);
      assert a + (b + c + d) == Listed(report) && b + (c + d) == b + c + d && d + [] == d;
      FourAnswered(old(staged), a, b, c, d);
      assert [] + Answers(old(staged), Listed(report)) == Answers(old(staged), Listed(report));
      NothingToAnswer(staged, answers);
    }

    method AccountChanged()
      modifies this
      ensures staged == map[] && pending == {} && running == old(running)
    {
      staged, pending := map[], {};
    }

    method Stop()
      modifies this
      ensures staged == map[] && pending == {} && !running
    {
      staged, pending, running := map[], {}, false;
    }
  }

  lemma BatchIs(staged: map<string, Change>, pending: set<Pending>, batch: Batch)
    requires forall n :: n in batch.saves <==> Pending(Save, n) in pending && n in staged && staged[n].op == Save
    requires forall n <- batch.saves :: batch.saves[n] == staged[n]
    requires forall n :: n in batch.deletes <==> Pending(Delete, n) in pending
    ensures batch == Built(staged, pending)
  {
    var built := Built(staged, pending);
    forall p | p in pending ensures Pending(p.op, p.name) == p {
    }
    assert built.saves == batch.saves;
    assert built.deletes == batch.deletes;
  }

  lemma RemovalsGrow(changes: seq<Change>, change: Change)
    ensures Removals(changes + [change]) == Removals(changes)
      + {Pending(Save, change.name), Pending(Delete, change.name)}
    ensures Additions(changes + [change]) == Additions(changes) + {Pending(change.op, change.name)}
  {
    var all := changes + [change];
    assert forall c :: c in all <==> c in changes || c == change;
    assert change in all;
    forall p | p in Removals(changes) + {Pending(Save, change.name), Pending(Delete, change.name)}
      ensures p in Removals(all) {
      if p in Removals(changes) {
        var c :| c in changes && p.name == c.name;
        assert c in all && p == Pending(p.op, c.name);
      } else {
        assert p == Pending(p.op, change.name);
      }
    }
  }

  lemma {:induction false} UnansweredJoins(staged: map<string, Change>, a: seq<Outcome>, b: seq<Outcome>)
    ensures Unanswered(staged, a + b) == Unanswered(Unanswered(staged, a), b)
  {
    if a == [] {
      assert a + b == b;
    } else {
      UnansweredJoins(staged - {a[0].name}, a[1..], b);
      assert (a + b)[1..] == a[1..] + b && (a + b)[0] == a[0];
    }
  }

  lemma FourAnswered(staged: map<string, Change>, a: seq<Outcome>, b: seq<Outcome>, c: seq<Outcome>, d: seq<Outcome>)
    ensures Unanswered(staged, a + b + c + d) == Unanswered(Unanswered(Unanswered(Unanswered(staged, a), b), c), d)
  {
    UnansweredJoins(staged, a, b);
    UnansweredJoins(staged, a + b, c);
    UnansweredJoins(staged, a + b + c, d);
  }

  lemma NothingToAnswer(staged: map<string, Change>, answers: seq<Answer>)
    ensures answers + Answers(staged, []) == answers
  {
  }
}
