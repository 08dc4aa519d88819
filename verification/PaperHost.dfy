// The paper-trading host: one ledger in memory and in the store, accounts that another Mac runs, and
// the panel's cached view. See src/host/paper_host.rs.
module PaperHost {
  import opened Text

  datatype Account = Account(id: nat, name: string, details: nat)
  datatype Order = Order(id: nat, account: nat, instrument: string, isWorking: bool, createdAt: int, details: nat)
  datatype Row = Row(id: nat, account: nat, details: nat)

  /** Everything that is kept: what two snapshots are compared by. */
  datatype Book = Book(
    selected: Option<nat>, accounts: seq<Account>, orders: seq<Order>, fills: seq<Row>, positions: seq<Row>,
    events: seq<Row>, trades: seq<Row>, journal: seq<Row>)

  const EMPTY := Book(None, [], [], [], [], [], [], [])

  datatype Quote = Quote(instrument: string, timestamp: int, last: real)

  /** The ledger with the latest marks, which are never kept. */
  datatype Snapshot = Snapshot(book: Book, quotes: map<string, Quote>)

  /** An operation of the engine: what it leaves, and whether it was refused. */
  type Operation = Snapshot -> (Snapshot, bool)

  const WORD := 0x1_0000_0000_0000_0000

  datatype Status = Done | Refused | NotLoaded | BrokenIntegrity | NotSaved

  /** How the writes of one save turn out: the owner is read, cleared and, after a failure, put back. */
  datatype Writes = Writes(readOwner: bool, clearOwner: bool, save: bool, restoreOwner: bool)

  /** The store, and the host that works on it; `owners` are the other Macs that run an account. */
  datatype State = State(
    book: Book, owners: map<nat, string>, memory: Snapshot, elsewhere: set<nat>, revision: nat, loadFailed: bool)

  // MARK: Applying an operation

  function Bumped(revision: nat): nat {
    (revision + 1) % WORD
  }

  /** Acting on another Mac's account takes it over, unless the operation was refused and changed nothing. */
  function Claim(s: State, account: Option<nat>, operation: Operation): Option<nat> {
    var (candidate, ok) := operation(s.memory);
    if account.Some? && account.value in s.elsewhere && (ok || candidate != s.memory) then account else None
  }

  function StatusOf(s: State, account: Option<nat>, operation: Operation, sound: Book -> bool, writes: Writes): Status {
    var (candidate, ok) := operation(s.memory);
    if s.loadFailed then NotLoaded
    else if !sound(candidate.book) then BrokenIntegrity
    else if Claim(s, account, operation).Some? && !(writes.readOwner && writes.clearOwner) then NotSaved
    else if !writes.save then NotSaved
    else if ok then Done else Refused
  }

  /** Whether the operation's outcome was stored and published. */
  predicate Published(status: Status) {
    status == Done || status == Refused
  }

  function Applied(s: State, account: Option<nat>, operation: Operation, sound: Book -> bool, writes: Writes): State {
    var status, claim := StatusOf(s, account, operation, sound, writes), Claim(s, account, operation);
    if Published(status) then
      var candidate := operation(s.memory).0;
      s.(book := candidate.book, memory := candidate, revision := Bumped(s.revision),
         owners := if claim.Some? then s.owners - {claim.value} else s.owners,
         elsewhere := if claim.Some? then s.elsewhere - {claim.value} else s.elsewhere)
    else if status == NotSaved && claim.Some? && writes.readOwner && writes.clearOwner && !writes.restoreOwner then
      s.(owners := s.owners - {claim.value})
    else s
  }

  class PaperStore {
    var book: Book
    var owners: map<nat, string>

    constructor (book: Book, owners: map<nat, string>)
      ensures this.book == book && this.owners == owners
    {
      this.book, this.owners := book, owners;
    }

    /** The owner of the account is cleared with the save, and put back if the save fails. */
    method Save(book: Book, claim: Option<nat>, writes: Writes) returns (ok: bool)
      modifies this
      ensures ok <==> writes.save && (claim.Some? ==> writes.readOwner && writes.clearOwner)
      ensures this.book == if ok then book else old(this.book)
      ensures owners ==
        if claim.None? || !writes.readOwner || !writes.clearOwner || (!ok && writes.restoreOwner) then old(owners)
        else old(owners) - {claim.value}
    {
      var before := None;
      if claim.Some? {
        if !writes.readOwner {
          return false;
        }
        before := if claim.value in owners then Some(owners[claim.value]) else None;
        if !writes.clearOwner {
          return false;
        }
        owners := owners - {claim.value};
      }
      if !writes.save {
        if before.Some? && writes.restoreOwner {
          owners := owners[claim.value := before.value];
        }
        return false;
      }
      this.book := book;
      ok := true;
    }
  }

  class Host {
    var memory: Snapshot
    var elsewhere: set<nat>
    var revision: nat
    var loadFailed: bool

    ghost function View(store: PaperStore): State
      reads this, store
    {
      State(store.book, store.owners, memory, elsewhere, revision, loadFailed)
    }

    constructor (store: PaperStore, readOk: bool, ownersOk: bool, sound: Book -> bool)
      ensures View(store) == Loaded(store.book, store.owners, readOk, ownersOk, sound)
    {
      loadFailed := !readOk || !sound(store.book);
      memory := Snapshot(if readOk && sound(store.book) then store.book else EMPTY, map[]);
      elsewhere := if readOk && sound(store.book) && ownersOk then store.owners.Keys else {};
      revision := 0;
    }

    method ApplyFor(
      store: PaperStore, account: Option<nat>, operation: Operation, sound: Book -> bool, writes: Writes
    ) returns (status: Status)
      modifies this, store
      ensures status == StatusOf(old(View(store)), account, operation, sound, writes)
      ensures View(store) == Applied(old(View(store)), account, operation, sound, writes)
    {
      if loadFailed {
        return NotLoaded;
      }
      var (candidate, ok) := operation(memory);
      if !sound(candidate.book) {
        return BrokenIntegrity;
      }
      var changed := candidate != memory;
      var claim := if account.Some? && account.value in elsewhere && (ok || changed) then account else None;
      var saved := store.Save(candidate.book, claim, writes);
      if !saved {
        return NotSaved;
      }
      if claim.Some? {
        elsewhere := elsewhere - {claim.value};
      }
      memory := candidate;
      revision := (revision + 1) % WORD;
      status := if ok then Done else Refused;
    }

    method ProcessQuote(
      store: PaperStore, quote: Quote, evaluate: (Snapshot, seq<nat>) -> (Book, bool), sound: Book -> bool,
        writeOk: bool
    )
      returns (status: Status)
      modifies this, store
      ensures status == QuoteStatus(old(View(store)), quote, evaluate, sound, writeOk)
      ensures View(store) == Quoted(old(View(store)), quote, evaluate, sound, writeOk)
    {
      if loadFailed {
        return NotLoaded;
      }
      var outdated := quote.instrument in memory.quotes && quote.timestamp < memory.quotes[quote.instrument].timestamp;
      var shouldPersist := !outdated && Fillable(memory.book.orders, quote.instrument, elsewhere) != [];
      if !shouldPersist {
        memory := ProcessExcept(memory, quote, elsewhere, evaluate).0;
        return Done;
      }
      var (candidate, ok) := ProcessExcept(memory, quote, elsewhere, evaluate);
      if !sound(candidate.book) {
        return BrokenIntegrity;
      }
      if candidate.book != memory.book {
        var saved := store.Save(candidate.book, None, Writes(true, true, writeOk, true));
        if !saved {
          return NotSaved;
        }
        revision := (revision + 1) % WORD;
      }
      memory := candidate;
      status := if ok then Done else Refused;
    }

    /** Re-reads the store; live marks stay, and a selection that is gone falls back to the first account. */
    method Reload(store: PaperStore, readOk: bool, ownersOk: bool, sound: Book -> bool)
      modifies this
      ensures View(store) == Reloaded(old(View(store)), readOk, ownersOk, sound)
    {
      if loadFailed || !readOk || !sound(store.book) {
        return;
      }
      var found := store.book.selected.Some? && HasAccount(store.book, store.book.selected.value);
      var selected := if found then store.book.selected
        else if store.book.accounts == [] then None else Some(store.book.accounts[0].id);
      memory := Snapshot(store.book.(selected := selected), memory.quotes);
      revision := (revision + 1) % WORD;
      elsewhere := if ownersOk then store.owners.Keys else {};
    }
  }

  // MARK: Quotes

  /** Working orders on the instrument in accounts this Mac runs. */
  function Fillable(orders: seq<Order>, instrument: string, skip: set<nat>): seq<nat> {
    if orders == [] then []
    else
      var rest := Fillable(orders[1..], instrument, skip);
      if orders[0].instrument == instrument && orders[0].isWorking && orders[0].account !in skip
        then [orders[0].id] + rest else rest
  }

  /** The engine's part: note the mark, and evaluate the orders it can move. */
  function ProcessExcept(
    m: Snapshot, quote: Quote, skip: set<nat>, evaluate: (Snapshot, seq<nat>) -> (Book, bool)
  ): (Snapshot, bool) {
    if quote.instrument in m.quotes && quote.timestamp < m.quotes[quote.instrument].timestamp then (m, true)
    else
      var marked := m.(quotes := m.quotes[quote.instrument := quote]);
      var ids := Fillable(m.book.orders, quote.instrument, skip);
      if ids == [] then (marked, true)
      else
        var (book, ok) := evaluate(marked, ids);
        (marked.(book := book), ok)
  }

  function QuoteStatus(
    s: State, quote: Quote, evaluate: (Snapshot, seq<nat>) -> (Book, bool), sound: Book -> bool, writeOk: bool
  ): Status {
    var (candidate, ok) := ProcessExcept(s.memory, quote, s.elsewhere, evaluate);
    if s.loadFailed then NotLoaded
    else if !Persists(s, quote) then Done
    else if !sound(candidate.book) then BrokenIntegrity
    else if candidate.book != s.memory.book && !writeOk then NotSaved
    else if ok then Done else Refused
  }

  /** Only a changed ledger is saved; a mark that changed nothing is kept in memory alone. */
  function Quoted(
    s: State, quote: Quote, evaluate: (Snapshot, seq<nat>) -> (Book, bool), sound: Book -> bool, writeOk: bool
  ): State {
    var candidate := ProcessExcept(s.memory, quote, s.elsewhere, evaluate).0;
    if !Published(QuoteStatus(s, quote, evaluate, sound, writeOk)) then s
    else if candidate.book == s.memory.book then s.(memory := candidate)
    else s.(memory := candidate, book := candidate.book, revision := Bumped(s.revision))
  }

  /** Whether the quote could evaluate an order. */
  predicate Persists(s: State, quote: Quote) {
    && !(quote.instrument in s.memory.quotes && quote.timestamp < s.memory.quotes[quote.instrument].timestamp)
    && Fillable(s.memory.book.orders, quote.instrument, s.elsewhere) != []
  }

  // MARK: Loading

  predicate HasAccount(book: Book, id: nat) {
    exists a <- book.accounts :: a.id == id
  }

  function Loaded(book: Book, owners: map<nat, string>, readOk: bool, ownersOk: bool, sound: Book -> bool): State {
    if readOk && sound(book) then State(book, owners, Snapshot(book, map[]), if ownersOk then owners.Keys else {}, 0,
      false)
    else State(book, owners, Snapshot(EMPTY, map[]), {}, 0, true)
  }

  function Reloaded(s: State, readOk: bool, ownersOk: bool, sound: Book -> bool): State {
    if s.loadFailed || !readOk || !sound(s.book) then s
    else
      var selected :=
        if s.book.selected.Some? && HasAccount(s.book, s.book.selected.value) then s.book.selected
        else if s.book.accounts == [] then None else Some(s.book.accounts[0].id);
      s.(memory := Snapshot(s.book.(selected := selected), s.memory.quotes), revision := Bumped(s.revision),
         elsewhere := if ownersOk then s.owners.Keys else {})
  }

  /**
   * A host starts as the store has it, knowing the owners if they can be read, and with no quote of
   * an earlier session; what cannot be read, or is unsound, leaves it empty and marked as failed.
   */
  lemma HostsStartMirrored(book: Book, owners: map<nat, string>, readOk: bool, ownersOk: bool, sound: Book -> bool)
    ensures var s := Loaded(book, owners, readOk, ownersOk, sound);
      && s.book == book && s.owners == owners && s.revision == 0 && s.memory.quotes == map[]
      && (s.loadFailed <==> !(readOk && sound(book)))
      && (s.loadFailed ==> s.memory.book == EMPTY && s.elsewhere == {})
      && (!s.loadFailed ==> s.memory.book == book && forall id :: id in s.elsewhere <==> ownersOk && id in owners)
  {
  }

  // MARK: Runs

  /** What happens to a host: operations, quotes, and iCloud Sync changing the store underneath before a reload. */
  datatype Step =
    | Apply(account: Option<nat>, operation: Operation, writes: Writes)
    | Process(quote: Quote, evaluate: (Snapshot, seq<nat>) -> (Book, bool), writeOk: bool)
    | Synced(book: Book, owners: map<nat, string>, readOk: bool, ownersOk: bool)

  function Next(s: State, step: Step, sound: Book -> bool): State {
    match step
    case Apply(account, operation, writes) => Applied(s, account, operation, sound, writes)
    case Process(quote, evaluate, writeOk) => Quoted(s, quote, evaluate, sound, writeOk)
    case Synced(book, owners, readOk, ownersOk) => Reloaded(s.(book := book, owners := owners), readOk, ownersOk, sound)
  }

  function After(s: State, steps: seq<Step>, sound: Book -> bool): State {
    if steps == [] then s else Next(After(s, steps[..|steps| - 1], sound), steps[|steps| - 1], sound)
  }

  // MARK: One ledger

  /** Memory and store hold the same ledger, but for a selection that a reload repaired. */
  predicate Mirrors(s: State) {
    s.memory.book == s.book.(selected := s.memory.book.selected)
  }

  /** The reload reads what was synced, or there was nothing new to read. */
  predicate Heard(s: State, step: Step, sound: Book -> bool) {
    step.Synced? && !(step.readOk && sound(step.book)) ==>
      step.book.(selected := s.memory.book.selected) == s.memory.book
  }

  lemma MirroredExactly(s: State, step: Step, sound: Book -> bool)
    requires Mirrors(s) && !s.loadFailed
    ensures !Next(s, step, sound).loadFailed && (Mirrors(Next(s, step, sound)) <==> Heard(s, step, sound))
  {
    hide ProcessExcept, Claim;
  }

  /**
   * Over every run of operations, quotes and syncs, successful or not, memory is in every state
   * what is stored if and only if no sync brought a new ledger that could not be read.
   */
  lemma {:induction false} LedgerIsMirrored(s: State, steps: seq<Step>, sound: Book -> bool)
    requires Mirrors(s) && !s.loadFailed
    ensures AlwaysMirrors(s, steps, sound) <==> AllHeard(s, steps, sound)
    ensures !After(s, steps, sound).loadFailed
  {
    hide Mirrors, Next, Heard;
    if steps != [] {
      var n := |steps| - 1;
      LedgerIsMirrored(s, steps[..n], sound);
      LoadedStays(After(s, steps[..n], sound), steps[n], sound);
      if Mirrors(After(s, steps[..n], sound)) {
        MirroredExactly(After(s, steps[..n], sound), steps[n], sound);
      }
    }
  }

  /** In every state of the run. */
  predicate AlwaysMirrors(s: State, steps: seq<Step>, sound: Book -> bool) {
    Mirrors(After(s, steps, sound)) && (steps == [] || AlwaysMirrors(s, steps[..|steps| - 1], sound))
  }

  predicate AllHeard(s: State, steps: seq<Step>, sound: Book -> bool) {
    steps == [] || (
      && AllHeard(s, steps[..|steps| - 1], sound)
      && Heard(After(s, steps[..|steps| - 1], sound), steps[|steps| - 1], sound))
  }

  lemma LoadedStays(s: State, step: Step, sound: Book -> bool)
    ensures Next(s, step, sound).loadFailed == s.loadFailed
  {
  }

  /** The step stores a ledger: a published operation, or a quote that changed something. */
  predicate Stores(s: State, step: Step, sound: Book -> bool) {
    match step
    case Apply(account, operation, writes) => Published(StatusOf(s, account, operation, sound, writes))
    case Process(quote, evaluate, writeOk) =>
      && Published(QuoteStatus(s, quote, evaluate, sound, writeOk))
      && ProcessExcept(s.memory, quote, s.elsewhere, evaluate).0.book != s.memory.book
    case Synced(_, _, _, _) => false
  }

  predicate StoresIn(s: State, steps: seq<Step>, sound: Book -> bool) {
    exists i :: 0 <= i < |steps| && Stores(After(s, steps[..i], sound), steps[i], sound)
  }

  lemma StepWith(s: State, step: Step, sound: Book -> bool, book: Book)
    requires !step.Synced?
    ensures var after := Next(s, step, sound);
      && Next(s.(book := book), step, sound) == after.(book := if Stores(s, step, sound) then after.book else book)
      && Stores(s.(book := book), step, sound) == Stores(s, step, sound)
      && (Stores(s, step, sound) ==> after.book == after.memory.book)
      && (!Stores(s, step, sound) ==> after.memory.book == s.memory.book)
  {
    hide ProcessExcept;
  }

  lemma {:induction false} StoredAfterRun(s: State, steps: seq<Step>, sound: Book -> bool, book: Book)
    requires forall step <- steps :: !step.Synced?
    ensures var after := After(s, steps, sound);
      && After(s.(book := book), steps, sound) == after.(book := if StoresIn(s, steps, sound) then after.book else book)
      && (StoresIn(s, steps, sound) ==> after.book == after.memory.book)
  {
    hide Next, Stores;
    if steps == [] {
      assert !StoresIn(s, [], sound);
    } else {
      var n := |steps| - 1;
      var before := After(s, steps[..n], sound);
      StoredAfterRun(s, steps[..n], sound, book);
      StoresAtLast(s, steps, sound);
      assert !steps[n].Synced?;
      StepWith(before, steps[n], sound, After(s.(book := book), steps[..n], sound).book);
      StepWith(before, steps[n], sound, before.book);
    }
  }

  lemma StoresAtLast(s: State, steps: seq<Step>, sound: Book -> bool)
    requires steps != []
    ensures var n := |steps| - 1;
      StoresIn(s, steps, sound) <==>
        StoresIn(s, steps[..n], sound) || Stores(After(s, steps[..n], sound), steps[n], sound)
  {
    hide Stores, After;
    var n := |steps| - 1;
    forall i | 0 <= i < n ensures steps[..n][..i] == steps[..i] && steps[..n][i] == steps[i] {
    }
  }

  /**
   * A ledger that sync stored and a reload could not read survives exactly until the next
   * operation or fill is stored: whatever it holds, it is still there if and only if none was.
   */
  lemma UnreadLedgerSurvives(s: State, steps: seq<Step>, sound: Book -> bool)
    requires forall step <- steps :: !step.Synced?
    ensures (forall book: Book :: After(s.(book := book), steps, sound).book == book) <==> !StoresIn(s, steps, sound)
  {
    hide After, StoresIn;
    forall book: Book ensures !StoresIn(s, steps, sound) ==> After(s.(book := book), steps, sound).book == book {
      StoredAfterRun(s, steps, sound, book);
    }
    if StoresIn(s, steps, sound) {
      var kept := After(s, steps, sound).book;
      var other := kept.(events := kept.events + [Row(0, 0, 0)]);
      StoredAfterRun(s, steps, sound, other);
      assert |other.events| != |kept.events|;
    }
  }

  /** Whatever another Mac stored, unread, the next operation here puts its own ledger in its place. */
  lemma UnreadSyncIsWiped(
    s: State, book: Book, owners: map<nat, string>, operation: Operation, sound: Book -> bool, writes: Writes
  )
    requires !s.loadFailed && sound(operation(s.memory).0.book) && writes.save
    ensures var steps := [Synced(book, owners, false, false), Apply(None, operation, writes)];
      After(s, steps[..1], sound).book == book && After(s, steps, sound).book == operation(s.memory).0.book
  {
    var steps := [Synced(book, owners, false, false), Apply(None, operation, writes)];
    assert steps[..1][..0] == [] && steps[..1] == [steps[0]];
    assert After(s, steps[..1], sound) == Next(s, steps[0], sound);
  }

  /** After an unreadable ledger nothing is ever written over it. */
  lemma {:induction false} UnreadLedgerIsLeftAlone(s: State, steps: seq<Step>, sound: Book -> bool)
    requires s.loadFailed && forall step <- steps :: !step.Synced?
    ensures After(s, steps, sound) == s
  {
    if steps != [] {
      UnreadLedgerIsLeftAlone(s, steps[..|steps| - 1], sound);
    }
  }

  /**
   * An operation that is not published changes nothing: not the ledger, not what is in memory, not
   * the panel's revision. The owner stays too, exactly unless he was cleared for a save that then
   * failed and could not be put back.
   */
  lemma FailuresChangeNothing(s: State, account: Option<nat>, operation: Operation, sound: Book -> bool, writes: Writes)
    requires !Published(StatusOf(s, account, operation, sound, writes))
    ensures var after := Applied(s, account, operation, sound, writes);
      && after == s.(owners := after.owners)
      && (after.owners == s.owners <==>
            !(!s.loadFailed && sound(operation(s.memory).0.book)
              && Claim(s, account, operation).Some? && Claim(s, account, operation).value in s.owners
              && writes.readOwner && writes.clearOwner && !writes.restoreOwner))
  {
    var claim := Claim(s, account, operation);
    if claim.Some? {
      if claim.value in s.owners {
        assert claim.value !in s.owners - {claim.value};
      } else {
        assert s.owners - {claim.value} == s.owners;
      }
    }
  }

  /**
   * Only an operation on the account itself takes it over from another Mac, and only one that
   * succeeded or changed something; no quote does.
   */
  lemma TakeoversAreDeliberate(s: State, step: Step, sound: Book -> bool, id: nat)
    requires !step.Synced? && id in s.elsewhere && id !in Next(s, step, sound).elsewhere
    ensures step.Apply? && step.account == Some(id)
      && Published(StatusOf(s, step.account, step.operation, sound, step.writes))
    ensures step.operation(s.memory).1 || step.operation(s.memory).0 != s.memory
    ensures id !in Next(s, step, sound).owners && Next(s, step, sound).elsewhere == s.elsewhere - {id}
  {
  }

  /** What the operation leaves is stored and shown, both, exactly if it is sound and every write it needs succeeds. */
  lemma OperationsTakeEffect(
    s: State, account: Option<nat>, operation: Operation, sound: Book -> bool, writes: Writes
  )
    ensures var status, after := StatusOf(s, account, operation, sound, writes),
      Applied(s, account, operation, sound, writes);
      var (candidate, ok) := operation(s.memory);
      var takes := account.Some? && account.value in s.elsewhere && (ok || candidate != s.memory);
      && (Published(status) <==>
            && !s.loadFailed && sound(candidate.book)
            && writes.save && (takes ==> writes.readOwner && writes.clearOwner))
      && (status == Done ==> ok) && (status == Refused ==> !ok)
      && (Published(status) ==>
            && after.memory == candidate && after.book == candidate.book && after.revision == Bumped(s.revision)
            && (forall id :: id in after.owners <==> id in s.owners && !(takes && account == Some(id)))
            && (forall id :: id in after.elsewhere <==> id in s.elsewhere && !(takes && account == Some(id))))
  {
  }

  /** An order this Mac should evaluate at the quote. */
  predicate IsAwaiting(s: State, quote: Quote, order: Order) {
    order.isWorking && order.instrument == quote.instrument && order.account !in s.elsewhere
  }

  /**
   * What a quote does. An older one than the last of its instrument does nothing. Any other is
   * noted; and if an order awaits it, what the evaluation leaves is kept, and stored if it differs,
   * unless it is unsound or cannot be stored, when the quote is not even noted.
   */
  lemma QuotesTakeEffect(
    s: State, quote: Quote, evaluate: (Snapshot, seq<nat>) -> (Book, bool), sound: Book -> bool, writeOk: bool
  )
    requires !s.loadFailed
    ensures var status, after := QuoteStatus(s, quote, evaluate, sound, writeOk),
      Quoted(s, quote, evaluate, sound, writeOk);
      var outdated := quote.instrument in s.memory.quotes
        && quote.timestamp < s.memory.quotes[quote.instrument].timestamp;
      var awaited := exists order <- s.memory.book.orders :: IsAwaiting(s, quote, order);
      var marked := s.memory.(quotes := s.memory.quotes[quote.instrument := quote]);
      var (book, ok) := evaluate(marked, Fillable(s.memory.book.orders, quote.instrument, s.elsewhere));
      && (outdated ==> after == s && status == Done)
      && (!outdated && !awaited ==> after == s.(memory := marked) && status == Done)
      && (!outdated && awaited ==>
            if !sound(book) then after == s && status == BrokenIntegrity
            else if book == s.memory.book then after == s.(memory := marked) && status == (if ok then Done else Refused)
            else if !writeOk then after == s && status == NotSaved
            else
              && after == s.(memory := marked.(book := book), book := book, revision := Bumped(s.revision))
              && status == if ok then Done else Refused)
  {
    FillableAwaits(s, quote, s.memory.book.orders);
    hide Fillable, IsAwaiting;
  }

  lemma {:induction false} FillableAwaits(s: State, quote: Quote, orders: seq<Order>)
    ensures Fillable(orders, quote.instrument, s.elsewhere) == [] <==>
      !exists order <- orders :: IsAwaiting(s, quote, order)
  {
    if orders != [] {
      FillableAwaits(s, quote, orders[1..]);
      assert orders == [orders[0]] + orders[1..];
      if IsAwaiting(s, quote, orders[0]) {
        assert orders[0] in orders;
      }
    }
  }

  /** A reload that can be read shows what is stored, keeps the live quotes, and selects an account that is there. */
  lemma ReloadsShowTheStore(s: State, ownersOk: bool, sound: Book -> bool)
    requires !s.loadFailed && sound(s.book)
    ensures var after := Reloaded(s, true, ownersOk, sound);
      && after.memory.book.(selected := s.book.selected) == s.book && after.memory.quotes == s.memory.quotes
      && after.book == s.book && after.owners == s.owners && after.revision == Bumped(s.revision)
      && (after.memory.book.selected.None? <==> s.book.accounts == [])
      && (after.memory.book.selected.Some? ==> HasAccount(s.book, after.memory.book.selected.value))
      && (if s.book.selected.Some? && HasAccount(s.book, s.book.selected.value) then after.memory.book == s.book
          else s.book.accounts != [] ==> after.memory.book.selected == Some(s.book.accounts[0].id))
  {
    if s.book.accounts != [] {
      assert s.book.accounts[0] in s.book.accounts;
    }
  }

  /** A quote is evaluated only against orders of accounts this Mac runs. */
  lemma {:induction false} OnlyOwnOrdersFill(orders: seq<Order>, instrument: string, skip: set<nat>)
    ensures forall id <- Fillable(orders, instrument, skip) ::
      exists o <- orders :: o.id == id && o.isWorking && o.instrument == instrument && o.account !in skip
    ensures Fillable(orders, instrument, skip) == [] <==>
      forall o <- orders :: !(o.isWorking && o.instrument == instrument && o.account !in skip)
  {
    if orders != [] {
      OnlyOwnOrdersFill(orders[1..], instrument, skip);
      assert orders == [orders[0]] + orders[1..];
    }
  }

  /** The orders a quote is evaluated against. */
  function Evaluated(s: State, quote: Quote): seq<nat> {
    if s.loadFailed || !Persists(s, quote) then [] else Fillable(s.memory.book.orders, quote.instrument, s.elsewhere)
  }

  predicate OneIdEach(orders: seq<Order>) {
    forall i, j :: 0 <= i < j < |orders| ==> orders[i].id != orders[j].id
  }

  /** Every order belongs to an account that is there. */
  predicate OrdersHaveAccounts(book: Book) {
    forall o <- book.orders :: HasAccount(book, o.account)
  }

  /** Whatever book is in memory, no quote is evaluated against an order of an account that another Mac runs. */
  ghost predicate OthersAreSpared(s: State) {
    forall m: Snapshot, quote: Quote, o: Order ::
      OneIdEach(m.book.orders) && OrdersHaveAccounts(m.book) && o in m.book.orders
        && o.id in Evaluated(s.(memory := m), quote)
      ==> o.account !in s.owners
  }

  /** The book of an account with one order. */
  function OneOrder(order: Order): Book {
    EMPTY.(selected := Some(order.account), accounts := [Account(order.account, "", 0)], orders := [order])
  }

  predicate KnowsOthers(s: State) {
    s.loadFailed || s.owners.Keys <= s.elsewhere
  }

  /** Another Mac's orders are left alone, for all orders and quotes, if and only if every owner is known. */
  lemma SparedExactlyWhenKnown(s: State)
    ensures OthersAreSpared(s) <==> KnowsOthers(s)
  {
    hide Fillable;
    if KnowsOthers(s) {
      forall m: Snapshot, quote: Quote, o: Order |
        OneIdEach(m.book.orders) && OrdersHaveAccounts(m.book) && o in m.book.orders
          && o.id in Evaluated(s.(memory := m), quote)
        ensures o.account !in s.owners
      {
        OnlyOwnOrdersFill(m.book.orders, quote.instrument, s.elsewhere);
        var own :| own in m.book.orders && own.id == o.id && own.account !in s.elsewhere;
        assert own == o;
      }
    } else {
      var account :| account in s.owners && account !in s.elsewhere;
      var o, quote := Order(0, account, "", true, 0, 0), Quote("", 0, 0.0);
      var m := Snapshot(OneOrder(o), map[]);
      OneOrderFills(o, s.elsewhere);
      assert m.book.accounts[0].id == o.account && OrdersHaveAccounts(m.book);
      assert OneIdEach(m.book.orders) && o in m.book.orders && o.id in Evaluated(s.(memory := m), quote);
    }
  }

  lemma OneOrderFills(o: Order, skip: set<nat>)
    ensures Fillable([o], o.instrument, skip) == if o.isWorking && o.account !in skip then [o.id] else []
  {
    assert [o][1..] == [] && [o.id] + [] == [o.id];
  }

  /** The reload reads the owners, or finds none, or reads nothing and knew them already. */
  predicate LearnsOwners(s: State, step: Step, sound: Book -> bool) {
    step.Synced? && !s.loadFailed ==>
      if step.readOk && sound(step.book) then step.ownersOk || step.owners == map[] else step.owners.Keys <= s.elsewhere
  }

  /**
   * Operations and quotes keep every owner known, whichever of their writes fail; a sync does exactly
   * if its reload learns them.
   */
  lemma StepSparesExactly(s: State, step: Step, sound: Book -> bool)
    requires KnowsOthers(s)
    ensures KnowsOthers(Next(s, step, sound)) <==> LearnsOwners(s, step, sound)
  {
    hide ProcessExcept;
    if step.Synced? && step.owners != map[] {
      assert exists account :: account in step.owners.Keys;
    }
  }

  lemma {:induction false} OthersStaySpared(s: State, steps: seq<Step>, sound: Book -> bool)
    requires KnowsOthers(s)
    ensures AlwaysSpares(s, steps, sound) <==> AllLearnOwners(s, steps, sound)
  {
    hide KnowsOthers, Next, LearnsOwners, OthersAreSpared;
    SparedExactlyWhenKnown(After(s, steps, sound));
    if steps != [] {
      var n := |steps| - 1;
      OthersStaySpared(s, steps[..n], sound);
      SparedExactlyWhenKnown(After(s, steps[..n], sound));
      if KnowsOthers(After(s, steps[..n], sound)) {
        StepSparesExactly(After(s, steps[..n], sound), steps[n], sound);
      }
    }
  }

  /** In every state of the run. */
  ghost predicate AlwaysSpares(s: State, steps: seq<Step>, sound: Book -> bool) {
    OthersAreSpared(After(s, steps, sound)) && (steps == [] || AlwaysSpares(s, steps[..|steps| - 1], sound))
  }

  predicate AllLearnOwners(s: State, steps: seq<Step>, sound: Book -> bool) {
    steps == [] || (
      && AllLearnOwners(s, steps[..|steps| - 1], sound)
      && LearnsOwners(After(s, steps[..|steps| - 1], sound), steps[|steps| - 1], sound))
  }

  /** If the owners cannot be read, another Mac's working order is evaluated here as well. */
  lemma UnreadOwnersAreIgnored(order: Order, quote: Quote, sound: Book -> bool)
    requires order.isWorking && order.instrument == quote.instrument && sound(OneOrder(order))
    ensures var s := State(OneOrder(order), map[order.account := "another Mac"], Snapshot(EMPTY, map[]), {}, 0, false);
      && OrdersHaveAccounts(s.book) && Reloaded(s, true, false, sound).memory.book == s.book
      && Evaluated(Reloaded(s, true, true, sound), quote) == []
      && Evaluated(Reloaded(s, true, false, sound), quote) == [order.id]
  {
    var s := State(OneOrder(order), map[order.account := "another Mac"], Snapshot(EMPTY, map[]), {}, 0, false);
    assert s.book.accounts[0].id == order.account && HasAccount(s.book, order.account);
    assert Reloaded(s, true, false, sound).elsewhere == {}
      && Reloaded(s, true, true, sound).elsewhere == {order.account};
    OneOrderFills(order, {order.account});
    OneOrderFills(order, {});
  }

  // MARK: The panel

  /** What the panel lists for the selected account. */
  datatype PanelView = PanelView(
    revision: nat, accountId: Option<nat>, account: Option<Account>, accounts: seq<(nat, string)>, positions: seq<Row>,
    workingOrders: seq<Order>, events: seq<Row>, trades: seq<Row>, journal: seq<Row>)

  function Mine(rows: seq<Row>, account: Option<nat>): seq<Row> {
    if rows == [] then []
    else
      var rest := Mine(rows[1..], account);
      if Some(rows[0].account) == account then [rows[0]] + rest else rest
  }

  function MyWorking(orders: seq<Order>, account: Option<nat>): seq<Order> {
    if orders == [] then []
    else
      var rest := MyWorking(orders[1..], account);
      if Some(orders[0].account) == account && orders[0].isWorking then [orders[0]] + rest else rest
  }

  function FindAccount(accounts: seq<Account>, id: nat): Option<Account> {
    if accounts == [] then None else if accounts[0].id == id then Some(accounts[0]) else FindAccount(accounts[1..], id)
  }

  function Choices(accounts: seq<Account>): seq<(nat, string)> {
    seq(|accounts|, i requires 0 <= i < |accounts| => (accounts[i].id, accounts[i].name))
  }

  function Build(book: Book, revision: nat): PanelView {
    PanelView(
      revision, book.selected, if book.selected.Some? then FindAccount(book.accounts, book.selected.value) else None,
      Choices(book.accounts), Mine(book.positions, book.selected), MyWorking(book.orders, book.selected),
      Mine(book.events, book.selected), Mine(book.trades, book.selected), Mine(book.journal, book.selected))
  }

  lemma {:induction false} MineAreOfTheAccount(rows: seq<Row>, account: Option<nat>)
    ensures forall row :: row in Mine(rows, account) <==> row in rows && account == Some(row.account)
    ensures multiset(Mine(rows, account)) <= multiset(rows)
  {
    if rows != [] {
      MineAreOfTheAccount(rows[1..], account);
      assert rows == [rows[0]] + rows[1..];
    }
  }

  lemma {:induction false} MyWorkingAreOfTheAccount(orders: seq<Order>, account: Option<nat>)
    ensures forall o :: o in MyWorking(orders, account) <==> o in orders && o.isWorking && account == Some(o.account)
    ensures multiset(MyWorking(orders, account)) <= multiset(orders)
  {
    if orders != [] {
      MyWorkingAreOfTheAccount(orders[1..], account);
      assert orders == [orders[0]] + orders[1..];
    }
  }

  lemma {:induction false} FoundAccount(accounts: seq<Account>, id: nat)
    ensures match FindAccount(accounts, id)
            case Some(account) => account in accounts && account.id == id
            case None => forall account <- accounts :: account.id != id
  {
    if accounts != [] {
      FoundAccount(accounts[1..], id);
    }
  }

  /** The panel lists the selected account, what is the account's own, and its working orders; nothing of another. */
  lemma PanelListsTheSelected(book: Book, revision: nat)
    ensures var view := Build(book, revision);
      && view.accountId == book.selected
      && (view.account.Some? ==> view.account.value in book.accounts && book.selected == Some(view.account.value.id))
      && (view.account.None? <==> book.selected.None? || !HasAccount(book, book.selected.value))
      && |view.accounts| == |book.accounts|
      && (forall i :: 0 <= i < |book.accounts| ==> view.accounts[i] == (book.accounts[i].id, book.accounts[i].name))
      && (forall o :: o in view.workingOrders <==> o in book.orders && o.isWorking && book.selected == Some(o.account))
      && (forall row :: row in view.positions <==> row in book.positions && book.selected == Some(row.account))
      && (forall row :: row in view.events <==> row in book.events && book.selected == Some(row.account))
      && (forall row :: row in view.trades <==> row in book.trades && book.selected == Some(row.account))
      && (forall row :: row in view.journal <==> row in book.journal && book.selected == Some(row.account))
  {
    hide Mine, MyWorking, FindAccount;
    MineAreOfTheAccount(book.positions, book.selected);
    MineAreOfTheAccount(book.events, book.selected);
    MineAreOfTheAccount(book.trades, book.selected);
    MineAreOfTheAccount(book.journal, book.selected);
    MyWorkingAreOfTheAccount(book.orders, book.selected);
    if book.selected.Some? {
      FoundAccount(book.accounts, book.selected.value);
    }
  }

  class PaperPanel {
    var cached: Option<PanelView>

    constructor ()
      ensures cached.None?
    {
      cached := None;
    }

    /** The lists of the selected account, built only when the host's revision or selection has moved on. */
    method View(host: Host) returns (view: PanelView)
      modifies this
      ensures view == Seen(old(cached), host.memory.book, host.revision) && cached == Some(view)
    {
      if cached.Some? && cached.value.revision == host.revision && cached.value.accountId == host.memory.book.selected {
        return cached.value;
      }
      view := Build(host.memory.book, host.revision);
      cached := Some(view);
    }
  }

  function Seen(cached: Option<PanelView>, book: Book, revision: nat): PanelView {
    if cached.Some? && cached.value.revision == revision && cached.value.accountId == book.selected then cached.value
    else Build(book, revision)
  }

  /** Whatever was cached, the view handed out is of the selected account and the current revision. */
  lemma ViewsAreOfTheSelected(cached: Option<PanelView>, book: Book, revision: nat)
    ensures var view := Seen(cached, book, revision);
      && view.accountId == book.selected && view.revision == revision
      && (view == Build(book, revision) || cached == Some(view))
  {
  }

  /** Steps that count: those after which the revision is another. */
  function Bumps(s: State, steps: seq<Step>, sound: Book -> bool): nat {
    if steps == [] then 0
    else
      var n := |steps| - 1;
      var before := After(s, steps[..n], sound);
      Bumps(s, steps[..n], sound) + if Next(before, steps[n], sound).revision != before.revision then 1 else 0
  }

  /** Each step that changes anything the panel lists moves the revision by one; the others leave it. */
  lemma StepsBump(s: State, step: Step, sound: Book -> bool)
    requires s.revision < WORD
    ensures Next(s, step, sound).revision == s.revision || Next(s, step, sound).revision == Bumped(s.revision)
    ensures Next(s, step, sound).revision == s.revision ==> Next(s, step, sound).memory.book == s.memory.book
    ensures Bumped(s.revision) != s.revision
  {
  }

  lemma {:induction false} RunsBump(s: State, steps: seq<Step>, sound: Book -> bool)
    requires s.revision < WORD
    ensures After(s, steps, sound).revision == (s.revision + Bumps(s, steps, sound)) % WORD
    ensures Bumps(s, steps, sound) == 0 ==> After(s, steps, sound).memory.book == s.memory.book
  {
    if steps != [] {
      var n := |steps| - 1;
      RunsBump(s, steps[..n], sound);
      StepsBump(After(s, steps[..n], sound), steps[n], sound);
      hide Next;
      OneMore(s.revision, Bumps(s, steps[..n], sound));
    }
  }

  lemma OneMore(revision: nat, bumps: nat)
    ensures Bumped((revision + bumps) % WORD) == (revision + bumps + 1) % WORD
  {
  }

  lemma SmallMove(revision: nat, bumps: nat)
    requires revision < WORD && 0 < bumps < WORD
    ensures (revision + bumps) % WORD != revision
  {
  }

  /**
   * A view kept over any run with fewer than 2^64 changes is handed out again only if building it
   * anew would give the same.
   */
  lemma CachedViewIsCurrent(s: State, steps: seq<Step>, sound: Book -> bool)
    requires s.revision < WORD && Bumps(s, steps, sound) < WORD
    ensures var after := After(s, steps, sound);
      Seen(Some(Build(s.memory.book, s.revision)), after.memory.book, after.revision)
        == Build(after.memory.book, after.revision)
  {
    hide *;
    RunsBump(s, steps, sound);
    MovedOrSame(s.revision, Bumps(s, steps, sound));
    var after := After(s, steps, sound);
    RebuiltOrSame(s.memory.book, s.revision, after.memory.book, after.revision);
  }

  lemma MovedOrSame(revision: nat, bumps: nat)
    requires revision < WORD && bumps < WORD
    ensures (revision + bumps) % WORD == revision <==> bumps == 0
  {
    if bumps > 0 {
      SmallMove(revision, bumps);
    }
  }

  lemma RebuiltOrSame(was: Book, before: nat, book: Book, revision: nat)
    requires before == revision ==> was == book
    ensures Seen(Some(Build(was, before)), book, revision) == Build(book, revision)
  {
    BuildSays(was, before);
    hide Build;
  }

  lemma BuildSays(book: Book, revision: nat)
    ensures var view := Build(book, revision);
      view.revision == revision && view.accountId == book.selected && view.accounts == Choices(book.accounts)
  {
  }

  /** At exactly 2^64 changes the revision is back where it was, and an old view passes for a new one. */
  lemma WrappedRevisionHidesAChange(s: State, steps: seq<Step>, sound: Book -> bool)
    requires s.revision < WORD && Bumps(s, steps, sound) == WORD
    requires var after := After(s, steps, sound);
      after.memory.book.selected == s.memory.book.selected
        && Choices(after.memory.book.accounts) != Choices(s.memory.book.accounts)
    ensures var after := After(s, steps, sound);
      Seen(Some(Build(s.memory.book, s.revision)), after.memory.book, after.revision)
        != Build(after.memory.book, after.revision)
  {
    hide *;
    RunsBump(s, steps, sound);
    var after := After(s, steps, sound);
    FullTurn(s.revision);
    StaleView(s.memory.book, after.memory.book, s.revision);
  }

  lemma FullTurn(revision: nat)
    requires revision < WORD
    ensures (revision + WORD) % WORD == revision
  {
  }

  lemma StaleView(was: Book, book: Book, revision: nat)
    requires was.selected == book.selected && Choices(was.accounts) != Choices(book.accounts)
    ensures Seen(Some(Build(was, revision)), book, revision) != Build(book, revision)
  {
    BuildSays(was, revision);
    BuildSays(book, revision);
    hide Build, Choices;
  }
}
