// Placing paper orders for an agent that may retry: the bounded memory of placed orders in
// src/host/mcp_host.rs, and what a repeated request gets.
module OrderMemory {
  import opened Text

  datatype Request = Request(account: nat, symbol: string, buys: bool, quantity: real, limit: Option<real>)

  datatype Entry = Entry(key: string, request: Request, order: nat)

  const CAPACITY: nat := 512

  // MARK: Keys

  function Key(account: nat, requestId: string): string {
    Digits(account) + [':'] + requestId
  }

  /** The text of the key tells both parts apart, whatever the agent puts into its id. */
  lemma KeysDiffer(a: nat, r: string, b: nat, s: string)
    ensures Key(a, r) == Key(b, s) <==> a == b && r == s
  {
    if Key(a, r) == Key(b, s) {
      var x, y := Digits(a), Digits(b);
      assert ':' !in x && ':' !in y by {
        assert !IsDigit(':');
      }
      SplitFirst(x, ':', r);
      SplitFirst(y, ':', s);
      assert Split(Key(a, r), ':')[0] == x && Split(Key(b, s), ':')[0] == y;
      assert Value(x) == a && Value(y) == b;
      assert Key(a, r)[|x| + 1..] == r && Key(b, s)[|y| + 1..] == s;
    }
  }

  // MARK: The memory

  function Recalled(entries: seq<Entry>, key: string): (found: Option<Entry>)
    ensures found.Some? ==> found.value in entries && found.value.key == key
    ensures found.None? ==> forall e <- entries :: e.key != key
  {
    if entries == [] then None
    else if entries[0].key == key then Some(entries[0])
    else Recalled(entries[1..], key)
  }

  function Forgotten(entries: seq<Entry>, key: string): (rest: seq<Entry>)
    ensures |rest| <= |entries|
  {
    if entries == [] then []
    else
      var n := |entries| - 1;
      Forgotten(entries[..n], key) + if entries[n].key == key then [] else [entries[n]]
  }

  function Remembered(entries: seq<Entry>, entry: Entry): seq<Entry> {
    var others := Forgotten(entries, entry.key);
    (if |others| >= CAPACITY then others[1..] else others) + [entry]
  }

  /** One record per key, and never more than 512. */
  predicate Tidy(entries: seq<Entry>) {
    && |entries| <= CAPACITY
    && forall i, j :: 0 <= i < j < |entries| ==> entries[i].key != entries[j].key
  }

  class Memory {
    var entries: seq<Entry>

    constructor ()
      ensures entries == [] && Tidy(entries)
    {
      entries := [];
    }

    method Recall(account: nat, requestId: string) returns (found: Option<Entry>)
      ensures found == Recalled(entries, Key(account, requestId))
    {
      var key := Key(account, requestId);
      for i := 0 to |entries|
        invariant Recalled(entries, key) == Recalled(entries[i..], key)
      {
        if entries[i].key == key {
          return Some(entries[i]);
        }
        assert entries[i..][1..] == entries[i + 1..];
      }
      found := None;
    }

    /** Keeps the records of all other keys. */
    method Forget(account: nat, requestId: string)
      modifies this
      ensures entries == Forgotten(old(entries), Key(account, requestId))
    {
      var key, kept := Key(account, requestId), [];
      for i := 0 to |entries|
        invariant entries == old(entries) && kept == Forgotten(entries[..i], key)
      {
        assert entries[..i + 1][..i] == entries[..i];
        if entries[i].key != key {
          kept := kept + [entries[i]];
        }
      }
      assert entries[..|entries|] == entries;
      entries := kept;
    }

    method Remember(account: nat, requestId: string, request: Request, order: nat)
      modifies this
      ensures entries == Remembered(old(entries), Entry(Key(account, requestId), request, order))
    {
      Forget(account, requestId);
      if |entries| >= CAPACITY {
        entries := entries[1..];
      }
      entries := entries + [Entry(Key(account, requestId), request, order)];
    }
  }

  lemma {:induction false} ForgottenKeepsOthers(entries: seq<Entry>, key: string)
    requires Tidy(entries)
    ensures Tidy(Forgotten(entries, key)) && forall e :: e in Forgotten(entries, key) <==> e in entries && e.key != key
  {
    if entries != [] {
      var n := |entries| - 1;
      ForgottenKeepsOthers(entries[..n], key);
      var front := Forgotten(entries[..n], key);
      assert entries == entries[..n] + [entries[n]];
      if entries[n].key != key {
        forall i | 0 <= i < |front| ensures front[i].key != entries[n].key {
          assert front[i] in front;
          var j :| 0 <= j < n && entries[j] == front[i];
        }
      }
    }
  }

  /** Remembering keeps the memory tidy. */
  lemma RememberedIsTidy(entries: seq<Entry>, entry: Entry)
    requires Tidy(entries)
    ensures Tidy(Remembered(entries, entry)) && entry in Remembered(entries, entry)
  {
    ForgottenKeepsOthers(entries, entry.key);
    var others := Forgotten(entries, entry.key);
    var kept := if |others| >= CAPACITY then others[1..] else others;
    forall i | 0 <= i < |kept| ensures kept[i].key != entry.key {
      assert kept[i] in others;
    }
  }

  // MARK: Placing an order

  /**
   * What the trading engine makes of a submission, with the orders that exist afterwards: for each
   * number, which of all orders ever placed has it.
   */
  datatype Submission = Accepted(order: nat, orders: map<nat, nat>) | Refused(orders: map<nat, nat>)

  datatype Answer = NotTradable | Conflict | AlreadyPlaced(order: nat) | Invalid | WouldPlace | Rejected
    | Placed(order: nat)

  /** A call of the tool, and how the account and the engine would answer it. */
  datatype Call = Call(request: Request, dryRun: bool, requestId: Option<string>, tradable: bool, checks: bool,
    submission: Submission)

  datatype World = World(entries: seq<Entry>, orders: map<nat, nat>)

  class Orders {
    var existing: map<nat, nat>

    constructor ()
      ensures existing == map[]
    {
      existing := map[];
    }

    method Submit(submission: Submission)
      modifies this
      ensures existing == submission.orders
    {
      existing := submission.orders;
    }
  }

  function KeyOf(call: Call): string
    requires call.requestId.Some?
  {
    Key(call.request.account, call.requestId.value)
  }

  /** The record of an order that still exists. */
  function Standing(w: World, call: Call): Option<Entry> {
    if call.requestId.None? then None
    else
      match Recalled(w.entries, KeyOf(call))
      case Some(entry) => if entry.order in w.orders then Some(entry) else None
      case None => None
  }

  function AnswerTo(w: World, call: Call): Answer {
    if !call.tradable then NotTradable
    else
      match Standing(w, call)
      case Some(entry) => if entry.request != call.request then Conflict else AlreadyPlaced(entry.order)
      case None =>
        if call.dryRun then (if call.checks then WouldPlace else Invalid)
        else if call.submission.Refused? then Rejected
        else Placed(call.submission.order)
  }

  function AfterCall(w: World, call: Call): World {
    if !call.tradable || Standing(w, call).Some? then w
    else
      var entries := if call.requestId.Some? then Forgetting(w, call) else w.entries;
      if call.dryRun then World(entries, w.orders)
      else if call.submission.Refused? then World(entries, call.submission.orders)
      else
        World(if call.requestId.Some? then Remembered(entries, Entry(KeyOf(call), call.request, call.submission.order))
          else entries,
              call.submission.orders)
  }

  /** A record of an order that is gone is dropped. */
  function Forgetting(w: World, call: Call): seq<Entry>
    requires call.requestId.Some?
  {
    if Recalled(w.entries, KeyOf(call)).Some? then Forgotten(w.entries, KeyOf(call)) else w.entries
  }

  method PlacePaperOrder(host: Orders, memory: Memory, call: Call) returns (answer: Answer)
    modifies host, memory
    ensures answer == AnswerTo(old(World(memory.entries, host.existing)), call)
    ensures World(memory.entries, host.existing) == AfterCall(old(World(memory.entries, host.existing)), call)
  {
    if !call.tradable {
      return NotTradable;
    }
    if call.requestId.Some? {
      var known := memory.Recall(call.request.account, call.requestId.value);
      if known.Some? {
        if known.value.order in host.existing {
          if known.value.request != call.request {
            return Conflict;
          }
          return AlreadyPlaced(known.value.order);
        }
        memory.Forget(call.request.account, call.requestId.value);
      }
    }
    if call.dryRun {
      return if call.checks then WouldPlace else Invalid;
    }
    host.Submit(call.submission);
    if call.submission.Refused? {
      return Rejected;
    }
    if call.requestId.Some? {
      memory.Remember(call.request.account, call.requestId.value, call.request, call.submission.order);
    }
    answer := Placed(call.submission.order);
  }

  // MARK: What a call does

  /** Whatever else happens to the orders: other programs place some, accounts are reset or deleted. */
  datatype Step = Tool(call: Call) | Elsewhere(orders: map<nat, nat>)

  function Next(w: World, step: Step): World {
    match step
    case Tool(call) => AfterCall(w, call)
    case Elsewhere(orders) => w.(orders := orders)
  }

  function After(w: World, steps: seq<Step>): World {
    if steps == [] then w else Next(After(w, steps[..|steps| - 1]), steps[|steps| - 1])
  }

  /** A record of the call's own id names an order that exists. */
  predicate IsOnRecord(w: World, call: Call) {
    call.requestId.Some? && exists e <- w.entries :: e.key == KeyOf(call) && e.order in w.orders
  }

  lemma StandingIsOnRecord(w: World, call: Call)
    requires Tidy(w.entries)
    ensures Standing(w, call).Some? <==> IsOnRecord(w, call)
  {
    if IsOnRecord(w, call) {
      var e :| e in w.entries && e.key == KeyOf(call) && e.order in w.orders;
      RecalledInTidy(w.entries, e);
    }
  }

  /**
   * An account run elsewhere is refused and nothing happens. With the order on record nothing
   * happens either. Otherwise a dry run only says whether the order passes the check, and a real
   * call submits it: the orders are then what the engine made of it, and the answer says which.
   */
  lemma CallsAnswerForWhatTheyDo(w: World, call: Call)
    requires Tidy(w.entries)
    ensures var answer, after := AnswerTo(w, call), AfterCall(w, call);
      && (answer == NotTradable <==> !call.tradable)
      && (answer.Conflict? || answer.AlreadyPlaced? <==> call.tradable && IsOnRecord(w, call))
      && (!call.tradable || IsOnRecord(w, call) ==> after == w)
      && (answer == WouldPlace <==> call.tradable && !IsOnRecord(w, call) && call.dryRun && call.checks)
      && (answer == Invalid <==> call.tradable && !IsOnRecord(w, call) && call.dryRun && !call.checks)
      && (answer.Placed? || answer == Rejected <==> call.tradable && !IsOnRecord(w, call) && !call.dryRun)
      && (answer.Placed? ==> call.submission == Accepted(answer.order, after.orders))
      && (answer == Rejected ==> call.submission == Refused(after.orders))
      && (!answer.Placed? && answer != Rejected ==> after.orders == w.orders)
  {
    StandingIsOnRecord(w, call);
    hide Tidy, Standing, Forgetting, Remembered, IsOnRecord;
  }

  /**
   * A record appears only for an order that was placed; every other call at most drops its own, of an
   * order that is gone.
   */
  lemma RecordsAreOfPlacedOrders(w: World, call: Call)
    requires Tidy(w.entries)
    ensures Tidy(AfterCall(w, call).entries)
    ensures var answer, after := AnswerTo(w, call), AfterCall(w, call);
      && (answer.Placed? && call.requestId.Some? ==> Entry(KeyOf(call), call.request, answer.order) in after.entries)
      && (forall e <- after.entries :: e in w.entries ||
            (answer.Placed? && call.requestId.Some? && e == Entry(KeyOf(call), call.request, answer.order)))
      && (!answer.Placed? ==> forall e <- w.entries :: e !in after.entries ==>
            call.requestId.Some? && e.key == KeyOf(call) && e.order !in w.orders)
      && (call.tradable && call.requestId.Some? && !IsOnRecord(w, call) && !answer.Placed? ==>
            forall e <- after.entries :: e.key != KeyOf(call))
  {
    if call.requestId.Some? {
      ForgottenKeepsOthers(w.entries, KeyOf(call));
      StandingIsOnRecord(w, call);
      if AnswerTo(w, call).Placed? {
        var entry := Entry(KeyOf(call), call.request, call.submission.order);
        RememberedIsTidy(Forgetting(w, call), entry);
        RememberedAreOld(Forgetting(w, call), entry);
      }
      hide Tidy, Remembered, Forgotten, Key;
    }
  }

  lemma RememberedAreOld(entries: seq<Entry>, entry: Entry)
    requires Tidy(entries)
    ensures forall e <- Remembered(entries, entry) :: e == entry || e in entries
  {
    ForgottenKeepsOthers(entries, entry.key);
    hide Tidy, Forgotten;
    var others := Forgotten(entries, entry.key);
    assert forall e <- others[if |others| >= CAPACITY then 1 else 0..] :: e in others;
  }

  /** Orders are changed only elsewhere, and by calls answered as placed or rejected. */
  predicate Submits(w: World, step: Step) {
    step.Elsewhere? || AnswerTo(w, step.call).Placed? || AnswerTo(w, step.call) == Rejected
  }

  predicate NoneSubmits(w: World, steps: seq<Step>) {
    steps == [] || (
      var n := |steps| - 1;
      NoneSubmits(w, steps[..n]) && !Submits(After(w, steps[..n]), steps[n]))
  }

  /** However many calls go by, dry or refused or repeated: while none submits, the orders stay what they were. */
  lemma {:induction false} OrdersStayUnlessSubmitted(w: World, steps: seq<Step>)
    requires Tidy(w.entries)
    ensures Tidy(After(w, steps).entries)
    ensures NoneSubmits(w, steps) ==> After(w, steps).orders == w.orders
    ensures (forall step <- steps :: step.Tool? && (step.call.dryRun || !step.call.tradable)) ==> NoneSubmits(w, steps)
  {
    hide Tidy, AfterCall, AnswerTo;
    if steps != [] {
      var n := |steps| - 1;
      OrdersStayUnlessSubmitted(w, steps[..n]);
      if steps[n].Tool? {
        CallsAnswerForWhatTheyDo(After(w, steps[..n]), steps[n].call);
        RecordsAreOfPlacedOrders(After(w, steps[..n]), steps[n].call);
      }
      assert forall step <- steps[..n] :: step in steps;
    }
  }

  // MARK: Retries

  /** Some order has the number in every state of the run. */
  predicate Numbered(w: World, steps: seq<Step>, order: nat) {
    forall i :: 0 <= i <= |steps| ==> order in After(w, steps[..i]).orders
  }

  /** The number is that of this order, and of no other. */
  predicate Has(w: World, order: nat, placed: nat) {
    order in w.orders && w.orders[order] == placed
  }

  /** No step of the run removes the order. */
  predicate Throughout(w: World, steps: seq<Step>, order: nat, placed: nat) {
    forall i :: 0 <= i <= |steps| ==> Has(After(w, steps[..i]), order, placed)
  }

  /** An order that was removed does not come back. */
  ghost predicate NoneReturns(w: World, steps: seq<Step>) {
    forall i, j, order, placed ::
      0 <= i < j <= |steps| && Has(After(w, steps[..j]), order, placed) && Has(w, order, placed)
      ==> Has(After(w, steps[..i]), order, placed)
  }

  /** Whether a step adds a record under another key. */
  predicate RemembersAnother(w: World, step: Step, key: string) {
    step.Tool? && AnswerTo(w, step.call).Placed? && step.call.requestId.Some? && KeyOf(step.call) != key
  }

  function OthersRemembered(w: World, steps: seq<Step>, key: string): nat {
    if steps == [] then 0
    else
      var n := |steps| - 1;
      OthersRemembered(w, steps[..n], key) + if RemembersAnother(After(w, steps[..n]), steps[n], key) then 1 else 0
  }

  /** The record is there, and at most `after` records are newer. */
  predicate Holds(entries: seq<Entry>, entry: Entry, after: nat) {
    exists i :: 0 <= i < |entries| && entries[i] == entry && |entries| - 1 - i <= after
  }

  lemma {:induction false} ForgettingAnotherHolds(entries: seq<Entry>, entry: Entry, after: nat, key: string)
    requires Holds(entries, entry, after) && key != entry.key
    ensures Holds(Forgotten(entries, key), entry, after)
    decreases |entries|
  {
    var n := |entries| - 1;
    var i :| 0 <= i < |entries| && entries[i] == entry && |entries| - 1 - i <= after;
    var rest := Forgotten(entries[..n], key);
    if i == n {
      assert Forgotten(entries, key)[|rest|] == entry;
    } else {
      assert entries[..n][i] == entry && Holds(entries[..n], entry, after - 1);
      ForgettingAnotherHolds(entries[..n], entry, after - 1, key);
      var j :| 0 <= j < |rest| && rest[j] == entry && |rest| - 1 - j <= after - 1;
      assert Forgotten(entries, key)[j] == entry;
    }
  }

  lemma RememberingAnotherHolds(entries: seq<Entry>, entry: Entry, after: nat, other: Entry)
    requires Tidy(entries) && Holds(entries, entry, after) && other.key != entry.key && after + 1 < CAPACITY
    ensures Holds(Remembered(entries, other), entry, after + 1)
  {
    ForgettingAnotherHolds(entries, entry, after, other.key);
    ForgottenKeepsOthers(entries, other.key);
    var others := Forgotten(entries, other.key);
    var i :| 0 <= i < |others| && others[i] == entry && |others| - 1 - i <= after;
    var dropped := if |others| >= CAPACITY then 1 else 0;
    assert Remembered(entries, other)[i - dropped] == entry;
  }

  lemma RecalledInTidy(entries: seq<Entry>, entry: Entry)
    requires Tidy(entries) && entry in entries
    ensures Recalled(entries, entry.key) == Some(entry)
  {
    var found := Recalled(entries, entry.key);
    if found.Some? {
      var i :| 0 <= i < |entries| && entries[i] == entry;
      var j :| 0 <= j < |entries| && entries[j] == found.value;
    }
  }

  /** A call that finds no standing order is under another key, and drops no record but its own. */
  lemma ForgettingHolds(w: World, call: Call, entry: Entry, after: nat)
    requires Tidy(w.entries) && Holds(w.entries, entry, after) && entry.order in w.orders
    requires call.requestId.Some? && Standing(w, call).None?
    ensures KeyOf(call) != entry.key && Tidy(Forgetting(w, call)) && Holds(Forgetting(w, call), entry, after)
  {
    RecalledInTidy(w.entries, entry);
    ForgettingAnotherHolds(w.entries, entry, after, KeyOf(call));
    ForgottenKeepsOthers(w.entries, KeyOf(call));
  }

  lemma StepHolds(w: World, step: Step, entry: Entry, after: nat)
    requires Tidy(w.entries) && Holds(w.entries, entry, after) && entry.order in w.orders && after + 1 < CAPACITY
    ensures Tidy(Next(w, step).entries)
    ensures Holds(Next(w, step).entries, entry, after + if RemembersAnother(w, step, entry.key) then 1 else 0)
  {
    if step.Tool? && step.call.requestId.Some? && step.call.tradable && Standing(w, step.call).None? {
      ForgettingHolds(w, step.call, entry, after);
      var entries := Forgetting(w, step.call);
      hide Holds, Tidy, Forgetting, Forgotten, Remembered, Recalled, Key;
      if !step.call.dryRun && step.call.submission.Accepted? {
        var added := Entry(KeyOf(step.call), step.call.request, step.call.submission.order);
        RememberingAnotherHolds(entries, entry, after, added);
        RememberedIsTidy(entries, added);
      }
    }
  }

  lemma {:induction false} RunHolds(w: World, steps: seq<Step>, entry: Entry)
    requires Tidy(w.entries) && Holds(w.entries, entry, 0) && Numbered(w, steps, entry.order)
    requires OthersRemembered(w, steps, entry.key) < CAPACITY
    ensures Tidy(After(w, steps).entries)
      && Holds(After(w, steps).entries, entry, OthersRemembered(w, steps, entry.key))
  {
    hide Holds, Tidy, Next;
    if steps != [] {
      var n := |steps| - 1;
      forall i | 0 <= i <= n ensures entry.order in After(w, steps[..n][..i]).orders {
        assert steps[..n][..i] == steps[..i];
      }
      RunHolds(w, steps[..n], entry);
      assert entry.order in After(w, steps[..n]).orders;
      StepAtTheEdge(After(w, steps[..n]), steps[n], entry, OthersRemembered(w, steps[..n], entry.key));
    }
  }

  /** As StepHolds, when the step that would be the 512th other record is known not to be one. */
  lemma StepAtTheEdge(w: World, step: Step, entry: Entry, after: nat)
    requires Tidy(w.entries) && Holds(w.entries, entry, after) && entry.order in w.orders
    requires after + (if RemembersAnother(w, step, entry.key) then 1 else 0) < CAPACITY
    ensures Tidy(Next(w, step).entries)
    ensures Holds(Next(w, step).entries, entry, after + if RemembersAnother(w, step, entry.key) then 1 else 0)
  {
    if after + 1 < CAPACITY {
      StepHolds(w, step, entry, after);
    } else if step.Tool? && step.call.requestId.Some? && step.call.tradable && Standing(w, step.call).None? {
      ForgettingHolds(w, step.call, entry, after);
      hide Holds, Tidy, Forgetting, Forgotten, Recalled;
    }
  }

  /** The order a call's id stands for: its number, and which order that is. */
  function StandsFor(w: World, call: Call): Option<(nat, nat)> {
    match Standing(w, call)
    case Some(entry) => Some((entry.order, w.orders[entry.order]))
    case None => None
  }

  /**
   * Once an order is placed under an id, and while fewer than 512 other ids were remembered, a
   * repeated request is answered with the order first placed if and only if no step has removed
   * that order since. Then another request under the id is refused, and neither call changes anything.
   */
  lemma RetriesAreSafe(w: World, first: Call, steps: seq<Step>, again: Call)
    requires Tidy(w.entries) && first.requestId.Some? && AnswerTo(w, first).Placed?
      && first.submission.order in first.submission.orders
    requires NoneReturns(AfterCall(w, first), steps)
      && OthersRemembered(AfterCall(w, first), steps, KeyOf(first)) < CAPACITY
    requires again.requestId == first.requestId && again.request.account == first.request.account && again.tradable
    ensures var placed, later := AfterCall(w, first), After(AfterCall(w, first), steps);
      var order := first.submission.order;
      var which := placed.orders[order];
      && (StandsFor(later, again) == Some((order, which)) <==> Throughout(placed, steps, order, which))
      && (Throughout(placed, steps, order, which) ==>
            && AfterCall(later, again) == later
            && AnswerTo(later, again) == if again.request == first.request then AlreadyPlaced(order) else Conflict)
  {
    var placed, later := AfterCall(w, first), After(AfterCall(w, first), steps);
    var order := first.submission.order;
    var which := placed.orders[order];
    assert steps[..|steps|] == steps;
    if Throughout(placed, steps, order, which) {
      RetryIsRecalled(w, first, steps, again);
    } else if StandsFor(later, again) == Some((order, which)) {
      assert Has(After(placed, steps[..|steps|]), order, which) && Has(placed, order, which);
      StaysThroughout(placed, steps, order, which);
      assert false;
    }
  }

  lemma StaysThroughout(w: World, steps: seq<Step>, order: nat, placed: nat)
    requires NoneReturns(w, steps) && Has(w, order, placed) && Has(After(w, steps), order, placed)
    ensures Throughout(w, steps, order, placed)
  {
    hide After, Has;
    assert steps[..|steps|] == steps;
    forall i | 0 <= i <= |steps| ensures Has(After(w, steps[..i]), order, placed) {
      assert i < |steps| ==> Has(After(w, steps[..|steps|]), order, placed);
    }
  }

  lemma RetryIsRecalled(w: World, first: Call, steps: seq<Step>, again: Call)
    requires Tidy(w.entries) && first.requestId.Some? && AnswerTo(w, first).Placed?
    requires Numbered(AfterCall(w, first), steps, first.submission.order)
    requires OthersRemembered(AfterCall(w, first), steps, KeyOf(first)) < CAPACITY
    requires again.requestId == first.requestId && again.request.account == first.request.account && again.tradable
    ensures var later := After(AfterCall(w, first), steps);
      && Standing(later, again) == Some(Entry(KeyOf(first), first.request, first.submission.order))
      && AfterCall(later, again) == later
      && AnswerTo(later, again)
        == if again.request == first.request then AlreadyPlaced(first.submission.order) else Conflict
  {
    var placed, entry := AfterCall(w, first), Entry(KeyOf(first), first.request, first.submission.order);
    ForgottenKeepsOthers(w.entries, KeyOf(first));
    RememberedIsTidy(Forgetting(w, first), entry);
    assert placed.entries[|placed.entries| - 1] == entry && Holds(placed.entries, entry, 0);
    RunHolds(placed, steps, entry);
    var later := After(placed, steps);
    assert entry in later.entries;
    assert steps[..|steps|] == steps;
    RecalledInTidy(later.entries, entry);
  }

  // MARK: Where it ends

  /** After `n` records under other, distinct keys. */
  function Filled(entries: seq<Entry>, others: seq<Entry>): seq<Entry> {
    if others == [] then entries else Remembered(Filled(entries, others[..|others| - 1]), others[|others| - 1])
  }

  lemma {:induction false} ForgottenAbsent(entries: seq<Entry>, key: string)
    requires forall e <- entries :: e.key != key
    ensures Forgotten(entries, key) == entries
  {
    if entries != [] {
      assert entries[|entries| - 1] in entries;
      ForgottenAbsent(entries[..|entries| - 1], key);
    }
  }

  function Newest(entries: seq<Entry>): (kept: seq<Entry>)
    ensures |kept| <= CAPACITY
  {
    if |entries| > CAPACITY then entries[|entries| - CAPACITY..] else entries
  }

  lemma NewKeyIsAdded(all: seq<Entry>, last: Entry)
    requires forall e <- all :: e.key != last.key
    ensures Remembered(Newest(all), last) == Newest(all + [last])
  {
    ForgottenAbsent(Newest(all), last.key);
    hide Forgotten;
    NewestPlusOne(all, last);
  }

  lemma NewestPlusOne(all: seq<Entry>, last: Entry)
    ensures var kept := Newest(all);
      Newest(all + [last]) == (if |kept| >= CAPACITY then kept[1..] else kept) + [last]
  {
    var kept := Newest(all);
    if |all| >= CAPACITY {
      var from := |all| - CAPACITY;
      assert |kept| == CAPACITY && kept[1..] == all[from + 1..];
      assert (all + [last])[from + 1..] == all[from + 1..] + [last];
    }
  }

  /** The bound is exact: 512 records under new keys push every older one out, and then the id is free. */
  lemma {:induction false} FullMemoryForgets(entries: seq<Entry>, others: seq<Entry>)
    requires Tidy(entries)
    requires forall i, j :: 0 <= i < j < |others| ==> others[i].key != others[j].key
    requires forall e <- entries, o <- others :: e.key != o.key
    ensures Filled(entries, others) == Newest(entries + others)
    ensures |others| == CAPACITY ==> Filled(entries, others) == others
  {
    hide Newest, Remembered;
    if others == [] {
      assert entries + others == entries;
      NewestOfFew(entries);
    } else {
      var n := |others| - 1;
      FullMemoryForgets(entries, others[..n]);
      var last, all := others[n], entries + others[..n];
      forall e | e in all ensures e.key != last.key {
        var i :| 0 <= i < |all| && all[i] == e;
        assert last in others && (i < |entries| ==> e in entries);
        assert i >= |entries| ==> e == others[i - |entries|];
      }
      NewKeyIsAdded(all, last);
      assert entries + others == all + [last];
    }
    NewestOfMany(entries, others);
  }

  lemma NewestOfFew(entries: seq<Entry>)
    requires |entries| <= CAPACITY
    ensures Newest(entries) == entries
  {
  }

  lemma NewestOfMany(entries: seq<Entry>, others: seq<Entry>)
    ensures |others| == CAPACITY ==> Newest(entries + others) == others
  {
  }

  /**
   * That an order with the number exists is not enough. Deleting an account frees its numbers, so a
   * later order can have the number in the record, and the retry of the first is answered with it.
   */
  lemma ReusedNumberAnswersARetry(request: Request, requestId: string, first: nat, second: nat)
    requires first != second
    ensures var call := Call(request, false, Some(requestId), true, true, Accepted(2, map[2 := first]));
      var steps := [Elsewhere(map[]), Elsewhere(map[2 := second])];
      var placed := AfterCall(World([], map[]), call);
      && NoneReturns(placed, steps) && OthersRemembered(placed, steps, KeyOf(call)) == 0
      && StandsFor(placed, call) == Some((2, first)) && StandsFor(After(placed, steps), call) == Some((2, second))
      && AnswerTo(After(placed, steps), call) == AlreadyPlaced(2)
  {
    var call := Call(request, false, Some(requestId), true, true, Accepted(2, map[2 := first]));
    var entry := Entry(KeyOf(call), request, 2);
    RememberedIsTidy([], entry);
    assert Remembered([], entry) == [entry];
    RecalledInTidy([entry], entry);
    hide Recalled, Remembered, Key;
    var placed := AfterCall(World([], map[]), call);
    assert placed == World([entry], map[2 := first]);
    ReusedRun(placed, second, KeyOf(call));
  }

  lemma ReusedRun(w: World, second: nat, key: string)
    requires w.orders.Keys == {2} && w.orders[2] != second
    ensures var steps := [Elsewhere(map[]), Elsewhere(map[2 := second])];
      After(w, steps) == w.(orders := map[2 := second]) && NoneReturns(w, steps) && OthersRemembered(w, steps, key) == 0
  {
    var steps := [Elsewhere(map[]), Elsewhere(map[2 := second])];
    OneElsewhere(w, [], map[], key);
    OneElsewhere(w, [steps[0]], map[2 := second], key);
    assert [] + [steps[0]] == [steps[0]] && [steps[0]] + [steps[1]] == steps;
    assert After(w, []) == w && OthersRemembered(w, [], key) == 0;
    hide After, OthersRemembered;
    assert steps[..1] == [steps[0]] && steps[..2] == steps;
    forall j, order, placed | 0 < j <= 2 && Has(w, order, placed) ensures !Has(After(w, steps[..j]), order, placed) {
      assert j == 1 || j == 2;
    }
  }

  lemma OneElsewhere(w: World, steps: seq<Step>, orders: map<nat, nat>, key: string)
    ensures After(w, steps + [Elsewhere(orders)]) == After(w, steps).(orders := orders)
    ensures OthersRemembered(w, steps + [Elsewhere(orders)], key) == OthersRemembered(w, steps, key)
  {
    hide AfterCall;
    assert (steps + [Elsewhere(orders)])[..|steps|] == steps;
  }
}
