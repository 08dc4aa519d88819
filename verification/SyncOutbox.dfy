// The outbox of changes waiting to upload, and the stage commands made from it: src/store/sync.rs and
// src/sync/core.rs.
module SyncOutbox {
  import opened Text
  import opened SyncCoordinator

  /** A queued change; `due` is whether it is pending and its retry time has come. */
  datatype Row = Row(seqno: nat, name: string, op: Op, due: bool)

  const STAGE_BATCH: nat := 100

  // MARK: Queueing

  function Without(rows: seq<Row>, name: string): seq<Row> {
    if rows == [] then []
    else (if rows[0].name == name then [] else [rows[0]]) + Without(rows[1..], name)
  }

  /** Queueing again replaces the record's row, with a new number. */
  function Requeued(rows: seq<Row>, next: nat, name: string, op: Op, due: bool): seq<Row> {
    Without(rows, name) + [Row(next, name, op, due)]
  }

  /** An upload is acknowledged by its number. */
  function Removed(rows: seq<Row>, seqno: nat): seq<Row> {
    if rows == [] then []
    else (if rows[0].seqno == seqno then [] else [rows[0]]) + Removed(rows[1..], seqno)
  }

  /** One row per record, with numbers that were given out. */
  predicate OnePerRecord(rows: seq<Row>, next: nat) {
    && (forall i, j :: 0 <= i < j < |rows| ==> rows[i].name != rows[j].name)
    && (forall row <- rows :: row.seqno < next)
  }

  lemma {:induction false} WithoutDrops(rows: seq<Row>, next: nat, name: string)
    requires OnePerRecord(rows, next)
    ensures OnePerRecord(Without(rows, name), next)
    ensures forall row :: row in Without(rows, name) <==> row in rows && row.name != name
  {
    if rows != [] {
      assert rows == [rows[0]] + rows[1..];
      WithoutDrops(rows[1..], next, name);
      var rest := Without(rows[1..], name);
      forall j | 0 <= j < |rest| ensures rest[j].name != rows[0].name {
        assert rest[j] in rest;
      }
    }
  }

  lemma {:induction false} RemovedDrops(rows: seq<Row>, next: nat, seqno: nat)
    requires OnePerRecord(rows, next)
    ensures OnePerRecord(Removed(rows, seqno), next)
    ensures forall row :: row in Removed(rows, seqno) <==> row in rows && row.seqno != seqno
  {
    if rows != [] {
      assert rows == [rows[0]] + rows[1..];
      RemovedDrops(rows[1..], next, seqno);
      var rest := Removed(rows[1..], seqno);
      forall j | 0 <= j < |rest| ensures rest[j].name != rows[0].name {
        assert rest[j] in rest;
      }
    }
  }

  /**
   * There is one row per record however often it is queued, and acknowledging an upload that was
   * queued before never takes away what was queued since.
   */
  lemma QueueingKeepsTheNewest(rows: seq<Row>, next: nat, name: string, op: Op, due: bool, acknowledged: nat)
    requires OnePerRecord(rows, next) && acknowledged < next
    ensures var after := Requeued(rows, next, name, op, due);
      && OnePerRecord(after, next + 1) && OnePerRecord(Removed(after, acknowledged), next + 1)
      && Row(next, name, op, due) in Removed(after, acknowledged)
      && forall row <- after :: row.name == name ==> row == Row(next, name, op, due)
  {
    WithoutDrops(rows, next, name);
    var kept, after := Without(rows, name), Requeued(rows, next, name, op, due);
    forall i | 0 <= i < |kept| ensures kept[i].name != name {
      assert kept[i] in kept;
    }
    assert after[|kept|] == Row(next, name, op, due);
    RemovedDrops(after, next + 1, acknowledged);
  }

  class Outbox {
    var rows: seq<Row>
    var next: nat

    constructor ()
      ensures rows == [] && OnePerRecord(rows, next)
    {
      rows, next := [], 0;
    }

    method Enqueue(name: string, op: Op, due: bool)
      modifies this
      ensures rows == Requeued(old(rows), old(next), name, op, due) && next == old(next) + 1
    {
      var kept := [];
      for i := 0 to |rows|
        invariant rows == old(rows) && next == old(next)
        invariant kept + Without(rows[i..], name) == Without(rows, name)
      {
        assert rows[i..][0] == rows[i] && rows[i..][1..] == rows[i + 1..];
        if rows[i].name != name {
          kept := kept + [rows[i]];
        }
      }
      rows := kept + [Row(next, name, op, due)];
      next := next + 1;
    }

    method Acknowledge(seqno: nat)
      modifies this
      ensures rows == Removed(old(rows), seqno) && next == old(next)
    {
      var kept := [];
      for i := 0 to |rows|
        invariant rows == old(rows) && next == old(next)
        invariant kept + Removed(rows[i..], seqno) == Removed(rows, seqno)
      {
        assert rows[i..][0] == rows[i] && rows[i..][1..] == rows[i + 1..];
        if rows[i].seqno != seqno {
          kept := kept + [rows[i]];
        }
      }
      rows := kept;
    }
  }

  // MARK: Stage commands

  /** What is on its way, by number and by record, and whether deletions may be sent yet. */
  datatype Sending = Sending(inflight: set<nat>, busy: set<string>, deletesToo: bool)

  predicate Waits(row: Row, sending: Sending) {
    !row.due || row.seqno in sending.inflight || row.name in sending.busy || (row.op == Delete && !sending.deletesToo)
  }

  /** `payload` is what the record holds now, if it can be sent. */
  function Picked(rows: seq<Row>, sending: Sending, payload: Row -> Option<seq<nat>>, room: nat): seq<Change> {
    if rows == [] then []
    else if Waits(rows[0], sending) then Picked(rows[1..], sending, payload, room)
    else if room == 0 then []
    else
      match payload(rows[0])
      case None => Picked(rows[1..], sending, payload, room)
      case Some(body) =>
        [Change(rows[0].name, rows[0].seqno, rows[0].op, body)] + Picked(rows[1..], sending, payload, room - 1)
  }

  method Pump(rows: seq<Row>, sending: Sending, payload: Row -> Option<seq<nat>>) returns (staged: seq<Change>)
    ensures staged == Picked(rows, sending, payload, STAGE_BATCH)
  {
    hide Waits;
    staged := [];
    for i := 0 to |rows|
      invariant |staged| <= STAGE_BATCH
      invariant staged + Picked(rows[i..], sending, payload, STAGE_BATCH - |staged|)
        == Picked(rows, sending, payload, STAGE_BATCH)
    {
      var row := rows[i];
      assert rows[i..][0] == row && rows[i..][1..] == rows[i + 1..];
      if Waits(row, sending) {
        continue;
      }
      if |staged| >= STAGE_BATCH {
        break;
      }
      var body := payload(row);
      if body.Some? {
        var change := Change(row.name, row.seqno, row.op, body.value);
        assert staged + ([change] + Picked(rows[i + 1..], sending, payload, STAGE_BATCH - |staged| - 1))
            == staged + [change] + Picked(rows[i + 1..], sending, payload, STAGE_BATCH - |staged| - 1);
        staged := staged + [change];
      }
    }
  }

  /** A row goes out once its time has come, unless it is on its way already or its record has nothing to send. */
  predicate Goes(row: Row, sending: Sending, payload: Row -> Option<seq<nat>>) {
    && row.due && row.seqno !in sending.inflight && row.name !in sending.busy
    && (row.op == Delete ==> sending.deletesToo) && payload(row).Some?
  }

  /** Everything that could go out, in queue order. */
  function Going(rows: seq<Row>, sending: Sending, payload: Row -> Option<seq<nat>>): seq<Change> {
    if rows == [] then []
    else
      var n := |rows| - 1;
      Going(rows[..n], sending, payload)
      + if Goes(rows[n], sending, payload)
        then [Change(rows[n].name, rows[n].seqno, rows[n].op, payload(rows[n]).value)]
        else []
  }

  lemma {:induction false} GoingJoins(a: seq<Row>, b: seq<Row>, sending: Sending, payload: Row -> Option<seq<nat>>)
    ensures Going(a + b, sending, payload) == Going(a, sending, payload) + Going(b, sending, payload)
  {
    hide Goes;
    if b == [] {
      assert a + b == a;
    } else {
      var n := |b| - 1;
      GoingJoins(a, b[..n], sending, payload);
      assert (a + b)[..|a| + n] == a + b[..n] && (a + b)[|a| + n] == b[n];
    }
  }

  /** A command takes the first hundred of everything that could go out; nothing that could is passed over. */
  lemma {:induction false} FirstOfAllGo(rows: seq<Row>, sending: Sending, payload: Row -> Option<seq<nat>>, room: nat)
    ensures var all := Going(rows, sending, payload);
      Picked(rows, sending, payload, room) == if |all| <= room then all else all[..room]
  {
    if rows != [] {
      var first, rest := rows[0], Going(rows[1..], sending, payload);
      GoingJoins([first], rows[1..], sending, payload);
      assert [first] + rows[1..] == rows && [first][..0] == [];
      if !Goes(first, sending, payload) {
        FirstOfAllGo(rows[1..], sending, payload, room);
      } else if room > 0 {
        FirstOfAllGo(rows[1..], sending, payload, room - 1);
      }
    }
  }

  /**
   * No command names a record twice, or one that is already on its way, and every change it names
   * is one that is due; at most a hundred go at once.
   */
  lemma {:induction false} CommandsNameRecordsOnce(
    rows: seq<Row>, next: nat, sending: Sending, payload: Row -> Option<seq<nat>>, room: nat
  )
    requires OnePerRecord(rows, next)
    ensures var changes := Picked(rows, sending, payload, room);
      && DistinctNames(changes) && |changes| <= room
      && forall c <- changes :: c.name !in sending.busy && exists row <- rows ::
          row.due && row.name == c.name && row.seqno == c.seqno && row.op == c.op
  {
    if rows != [] {
      assert rows == [rows[0]] + rows[1..];
      assert OnePerRecord(rows[1..], next);
      if Waits(rows[0], sending) || (room > 0 && payload(rows[0]).None?) {
        CommandsNameRecordsOnce(rows[1..], next, sending, payload, room);
      } else if room > 0 {
        CommandsNameRecordsOnce(rows[1..], next, sending, payload, room - 1);
        var rest := Picked(rows[1..], sending, payload, room - 1);
        forall j | 0 <= j < |rest| ensures rest[j].name != rows[0].name {
          assert rest[j] in rest;
        }
      }
    }
  }
}
