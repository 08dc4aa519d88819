// Credentials of the MCP server: saved first and published afterwards, while other threads
// authenticate against what is published. See src/host/mcp_host.rs and src/mcp/state.rs.
module McpHost {
  import opened Text

  datatype Client = Client(id: string, name: string, verifier: string, permissions: set<nat>, createdAt: int,
    lastUsed: Option<int>)

  const MAX_CLIENTS: nat := 16

  predicate Lists(clients: seq<Client>, id: string) {
    exists c <- clients :: c.id == id
  }

  /** The same clients in the same order, whenever they were last used. */
  predicate SameButUse(a: seq<Client>, b: seq<Client>) {
    |a| == |b| && forall i :: 0 <= i < |a| ==> a[i].(lastUsed := None) == b[i].(lastUsed := None)
  }

  // MARK: Edits

  datatype Edit = Create(client: Client) | Revoke(id: string) | SetPermissions(id: string, permissions: set<nat>)

  function WithoutClient(clients: seq<Client>, id: string): seq<Client> {
    if clients == [] then []
    else if clients[0].id == id then WithoutClient(clients[1..], id)
    else [clients[0]] + WithoutClient(clients[1..], id)
  }

  function WithPermissions(clients: seq<Client>, id: string, permissions: set<nat>): (after: seq<Client>)
    ensures |after| == |clients| && forall i :: 0 <= i < |clients| ==> after[i].id == clients[i].id
  {
    if clients == [] then []
    else if clients[0].id == id then [clients[0].(permissions := permissions)] + clients[1..]
    else [clients[0]] + WithPermissions(clients[1..], id, permissions)
  }

  function EditedClients(clients: seq<Client>, edit: Edit): seq<Client> {
    match edit
    case Create(client) => clients + [client]
    case Revoke(id) => WithoutClient(clients, id)
    case SetPermissions(id, permissions) => WithPermissions(clients, id, permissions)
  }

  /** A full list takes no more clients. */
  predicate Allowed(clients: seq<Client>, edit: Edit) {
    edit.Create? ==> |clients| < MAX_CLIENTS
  }

  /** The token shown to the user, named by its client: a new client's replaces it, a revoked one's is hidden. */
  function ShownAfter(shown: Option<string>, edit: Edit): Option<string> {
    match edit
    case Create(client) => Some(client.id)
    case Revoke(id) => if shown == Some(id) then None else shown
    case SetPermissions(_, _) => shown
  }

  function FindClient(clients: seq<Client>, id: string): Option<Client> {
    if clients == [] then None else if clients[0].id == id then Some(clients[0]) else FindClient(clients[1..], id)
  }

  /** An edit does what it says to its own client, and leaves every other as it is. */
  lemma {:induction false} EditsChangeTheirClient(clients: seq<Client>, edit: Edit, id: string)
    ensures var before, after := FindClient(clients, id), FindClient(EditedClients(clients, edit), id);
      match edit
      case Create(client) => after == if before.None? && client.id == id then Some(client) else before
      case Revoke(gone) => after == if id == gone then None else before
      case SetPermissions(changed, permissions) =>
        if id == changed && before.Some? then after == Some(before.value.(permissions := permissions))
          else after == before
  {
    if clients != [] {
      EditsChangeTheirClient(clients[1..], edit, id);
      if edit.Create? {
        assert (clients + [edit.client])[1..] == clients[1..] + [edit.client];
      }
    }
  }

  lemma {:induction false} WithoutClientDrops(clients: seq<Client>, id: string)
    ensures forall c :: c in WithoutClient(clients, id) <==> c in clients && c.id != id
  {
    if clients != [] {
      WithoutClientDrops(clients[1..], id);
      assert clients == [clients[0]] + clients[1..];
    }
  }

  /** Only revoking takes a client off the list, and only creating puts one on. */
  lemma EditsListClients(clients: seq<Client>, edit: Edit, id: string)
    ensures Lists(EditedClients(clients, edit), id) <==>
      match edit
      case Create(client) => Lists(clients, id) || client.id == id
      case Revoke(gone) => Lists(clients, id) && id != gone
      case SetPermissions(_, _) => Lists(clients, id)
  {
    match edit {
      case Create(client) =>
        var after := clients + [client];
        assert after[|clients|] == client;
        assert forall c <- clients :: c in after;
      case Revoke(gone) => WithoutClientDrops(clients, gone);
      case SetPermissions(changed, permissions) =>
        var after := WithPermissions(clients, changed, permissions);
        forall c | c in clients ensures Lists(after, c.id) {
          var i :| 0 <= i < |clients| && clients[i] == c;
          assert after[i] in after;
        }
        forall c | c in after ensures Lists(clients, c.id) {
          var i :| 0 <= i < |after| && after[i] == c;
          assert clients[i] in clients;
        }
    }
  }

  lemma SameListsSame(a: seq<Client>, b: seq<Client>, id: string)
    requires SameButUse(a, b)
    ensures Lists(a, id) <==> Lists(b, id)
  {
    forall c | c in a ensures Lists(b, c.id) {
      var i :| 0 <= i < |a| && a[i] == c;
      assert b[i] in b && a[i].(lastUsed := None).id == b[i].(lastUsed := None).id;
    }
    forall c | c in b ensures Lists(a, c.id) {
      var i :| 0 <= i < |b| && b[i] == c;
      assert a[i] in a && a[i].(lastUsed := None).id == b[i].(lastUsed := None).id;
    }
  }

  // MARK: What is published

  /** The client a token is matched with: every verifier is compared, and the last match counts. */
  function Matched(clients: seq<Client>, presented: string): Option<string> {
    if clients == [] then None
    else
      var n := |clients| - 1;
      if clients[n].verifier == presented then Some(clients[n].id) else Matched(clients[..n], presented)
  }

  /** The client that is named and still has the verifier. */
  function Holder(clients: seq<Client>, id: string, presented: string): (i: Option<nat>)
    ensures i.Some? ==> i.value < |clients| && clients[i.value].id == id && clients[i.value].verifier == presented
    ensures i.None? ==> forall c <- clients :: !(c.id == id && c.verifier == presented)
  {
    if clients == [] then None
    else if clients[0].id == id && clients[0].verifier == presented then Some(0)
    else
      match Holder(clients[1..], id, presented)
      case None => None
      case Some(i) => Some(i + 1)
  }

  function Marked(clients: seq<Client>, id: string, presented: string, nowMs: int): seq<Client> {
    match Holder(clients, id, presented)
    case None => clients
    case Some(i) => clients[i := clients[i].(lastUsed := Some(nowMs))]
  }

  predicate IsLastWith(clients: seq<Client>, i: nat, presented: string)
    requires i < |clients|
  {
    clients[i].verifier == presented && forall j :: i < j < |clients| ==> clients[j].verifier != presented
  }

  /** The last client with the verifier, and none only if no client has it. */
  lemma {:induction false} MatchFindsTheVerifier(clients: seq<Client>, presented: string)
    ensures match Matched(clients, presented)
            case None => forall c <- clients :: c.verifier != presented
            case Some(id) => exists i :: 0 <= i < |clients| && clients[i].id == id && IsLastWith(clients, i, presented)
  {
    if clients != [] {
      var n := |clients| - 1;
      MatchFindsTheVerifier(clients[..n], presented);
      assert clients == clients[..n] + [clients[n]];
    }
  }

  class McpShared {
    var clients: seq<Client>
    var global: set<nat>
    var usageDirty: bool

    constructor ()
      ensures clients == [] && global == {} && !usageDirty
    {
      clients, global, usageDirty := [], {}, false;
    }

    method Replace(clients: seq<Client>, global: set<nat>)
      modifies this
      ensures this.clients == clients && this.global == global && usageDirty == old(usageDirty)
    {
      this.clients, this.global := clients, global;
    }

    /** The first half of authenticating, which holds no lock afterwards. */
    method Match(presented: string) returns (matched: Option<string>)
      ensures matched == Matched(clients, presented)
    {
      matched := None;
      for i := 0 to |clients|
        invariant matched == Matched(clients[..i], presented)
      {
        assert clients[..i + 1][..i] == clients[..i];
        if clients[i].verifier == presented {
          matched := Some(clients[i].id);
        }
      }
      assert clients[..|clients|] == clients;
    }

    /** The second half: the client must still be there, with the verifier that matched. */
    method Confirm(id: string, presented: string, nowMs: int) returns (identity: Option<string>)
      modifies this
      ensures clients == Marked(old(clients), id, presented, nowMs) && global == old(global)
      ensures identity == (if Holder(old(clients), id, presented).Some? then Some(id) else None)
      ensures usageDirty == (old(usageDirty) || identity.Some?)
    {
      for i := 0 to |clients|
        invariant clients == old(clients) && global == old(global) && usageDirty == old(usageDirty)
        invariant Holder(clients, id, presented)
          == match Holder(clients[i..], id, presented) case None => None case Some(k) => Some(k + i)
      {
        if clients[i].id == id && clients[i].verifier == presented {
          clients := clients[i := clients[i].(lastUsed := Some(nowMs))];
          usageDirty := true;
          return Some(id);
        }
        assert clients[i..][1..] == clients[i + 1..];
      }
      identity := None;
    }
  }

  class McpStore {
    var clients: seq<Client>
    var global: set<nat>

    constructor (clients: seq<Client>, global: set<nat>)
      ensures this.clients == clients && this.global == global
    {
      this.clients, this.global := clients, global;
    }
  }

  class Host {
    var loadFailed: bool
    var shown: Option<string>

    /** Fails closed: what cannot be read leaves nothing that could authenticate. */
    constructor (store: McpStore, shared: McpShared, readOk: bool)
      modifies shared
      ensures loadFailed == !readOk && shown.None?
      ensures shared.clients == (if readOk then store.clients else [])
        && shared.global == (if readOk then store.global else {})
      ensures shared.usageDirty == old(shared.usageDirty)
    {
      loadFailed, shown := !readOk, None;
      new;
      if readOk {
        shared.Replace(store.clients, store.global);
      } else {
        shared.Replace([], {});
      }
    }

    /** Saves the edited list, and only then publishes it. */
    method EditClients(store: McpStore, shared: McpShared, edit: Edit, writeOk: bool) returns (saved: bool)
      modifies this`shown, store, shared
      ensures saved <==> !loadFailed && Allowed(old(shared.clients), edit) && writeOk
      ensures saved ==>
        && store.clients == shared.clients == EditedClients(old(shared.clients), edit)
        && shown == ShownAfter(old(shown), edit)
      ensures !saved ==>
        && store.clients == old(store.clients) && shared.clients == old(shared.clients)
        && shown == old(shown)
      ensures shared.global == old(shared.global) && store.global == old(store.global)
    {
      if loadFailed || (edit.Create? && |shared.clients| >= MAX_CLIENTS) {
        return false;
      }
      var clients := EditedClients(shared.clients, edit);
      if !writeOk {
        return false;
      }
      store.clients := clients;
      shared.Replace(clients, shared.global);
      match edit {
        case Create(client) => shown := Some(client.id);
        case Revoke(id) =>
          if shown == Some(id) {
            shown := None;
          }
        case SetPermissions(_, _) =>
      }
      saved := true;
    }

    method ReplaceGlobal(store: McpStore, shared: McpShared, global: set<nat>, writeOk: bool)
      modifies store, shared
      ensures shared.clients == old(shared.clients) && store.clients == old(store.clients)
      ensures shared.global == (if !loadFailed && writeOk then global else old(shared.global))
      ensures store.global == (if !loadFailed && writeOk then global else old(store.global))
    {
      if loadFailed || !writeOk {
        return;
      }
      store.global := global;
      shared.Replace(shared.clients, global);
    }

    /** Saves when clients were last used, or remembers that it still has to. */
    method SaveUsage(store: McpStore, shared: McpShared, writeOk: bool)
      modifies store, shared
      ensures shared.clients == old(shared.clients) && shared.global == old(shared.global)
        && store.global == old(store.global)
      ensures store.clients == (if !loadFailed && old(shared.usageDirty) && writeOk then shared.clients
        else old(store.clients))
      ensures shared.usageDirty == (old(shared.usageDirty) && (loadFailed || !writeOk))
    {
      if loadFailed || !shared.usageDirty {
        return;
      }
      shared.usageDirty := false;
      if writeOk {
        store.clients := shared.clients;
      } else {
        shared.usageDirty := true;
      }
    }
  }

  // MARK: Steps between threads

  /** Where the app's thread is; a save and its publication have other threads' steps between them. */
  datatype Main =
    | Idle
    | SavingClients(clients: seq<Client>, edit: Edit)
    | SavedClients(clients: seq<Client>, edit: Edit)
    | PublishingClients(clients: seq<Client>, edit: Edit, global: set<nat>)
    | SavingGlobal(global: set<nat>)
    | SavedGlobal(global: set<nat>)
    | PublishingGlobal(global: set<nat>, clients: seq<Client>)
    | SavingUsage(clients: seq<Client>)

  datatype Published = Published(clients: seq<Client>, global: set<nat>, dirty: bool)
  datatype Saved = Saved(clients: seq<Client>, global: set<nat>)

  /** `matched` are the authentications between their halves. */
  datatype World = World(saved: Saved, shared: Published, main: Main, shown: Option<string>, loadFailed: bool,
    matched: map<nat, (string, string)>)

  datatype Step =
    | Begin(edit: Edit)
    | BeginGlobal(global: set<nat>)
    | BeginUsage
    | Write(ok: bool)
    | ReadRest
    | Publish
    | Dismiss
    | FirstHalf(t: nat, presented: string)
    | SecondHalf(t: nat, nowMs: int)

  predicate Enabled(w: World, step: Step) {
    match step
    case Begin(edit) => w.main.Idle? && !w.loadFailed && Allowed(w.shared.clients, edit)
    case BeginGlobal(_) => w.main.Idle? && !w.loadFailed
    case BeginUsage => w.main.Idle? && !w.loadFailed && w.shared.dirty
    case Write(_) => w.main.SavingClients? || w.main.SavingGlobal? || w.main.SavingUsage?
    case ReadRest => w.main.SavedClients? || w.main.SavedGlobal?
    case Publish => w.main.PublishingClients? || w.main.PublishingGlobal?
    case Dismiss => w.main.Idle?
    case FirstHalf(t, presented) => t !in w.matched && Matched(w.shared.clients, presented).Some?
    case SecondHalf(t, _) => t in w.matched
  }

  function AfterWrite(w: World, ok: bool): World
    requires Enabled(w, Write(ok))
  {
    match w.main
    case SavingClients(clients, edit) =>
      if ok then w.(saved := w.saved.(clients := clients), main := SavedClients(clients, edit)) else w.(main := Idle)
    case SavingGlobal(global) =>
      if ok then w.(saved := w.saved.(global := global), main := SavedGlobal(global)) else w.(main := Idle)
    case SavingUsage(clients) =>
      if ok then w.(saved := w.saved.(clients := clients), main := Idle)
      else w.(shared := w.shared.(dirty := true), main := Idle)
  }

  function Next(w: World, step: Step): World
    requires Enabled(w, step)
  {
    match step
    case Begin(edit) => w.(main := SavingClients(EditedClients(w.shared.clients, edit), edit))
    case BeginGlobal(global) => w.(main := SavingGlobal(global))
    case BeginUsage => w.(shared := w.shared.(dirty := false), main := SavingUsage(w.shared.clients))
    case Write(ok) => AfterWrite(w, ok)
    case ReadRest =>
      if w.main.SavedClients? then w.(main := PublishingClients(w.main.clients, w.main.edit, w.shared.global))
      else w.(main := PublishingGlobal(w.main.global, w.shared.clients))
    case Publish =>
      var shown := if w.main.PublishingClients? then ShownAfter(w.shown, w.main.edit) else w.shown;
      w.(shared := w.shared.(clients := w.main.clients, global := w.main.global), main := Idle, shown := shown)
    case Dismiss => w.(shown := None)
    case FirstHalf(t, presented) =>
      w.(matched := w.matched[t := (presented, Matched(w.shared.clients, presented).value)])
    case SecondHalf(t, nowMs) =>
      var (presented, id) := w.matched[t];
      w.(shared := w.shared.(clients := Marked(w.shared.clients, id, presented, nowMs),
                             dirty := w.shared.dirty || Holder(w.shared.clients, id, presented).Some?),
         matched := w.matched - {t})
  }

  /** Whom the second half of an authentication lets in. */
  function Identity(w: World, t: nat): Option<string>
    requires t in w.matched
  {
    var (presented, id) := w.matched[t];
    if Holder(w.shared.clients, id, presented).Some? then Some(id) else None
  }

  ghost predicate IsRun(w: World, steps: seq<Step>)
    decreases steps
  {
    steps == [] || (Enabled(w, steps[0]) && IsRun(Next(w, steps[0]), steps[1..]))
  }

  ghost function After(w: World, steps: seq<Step>): World
    requires IsRun(w, steps)
    decreases steps
  {
    if steps == [] then w else After(Next(w, steps[0]), steps[1..])
  }

  // MARK: Saved is published

  /** What the published and the saved credentials have in common at each point of an edit. */
  predicate Consistent(w: World) {
    var c, s := w.shared, w.saved;
    match w.main
    case SavedClients(clients, _) => s.clients == clients && c.global == s.global
    case PublishingClients(clients, _, global) => s.clients == clients && c.global == s.global == global
    case SavedGlobal(global) => s.global == global && SameButUse(c.clients, s.clients)
    case PublishingGlobal(global, clients) =>
      s.global == global && SameButUse(clients, s.clients) && SameButUse(c.clients, s.clients)
    case SavingUsage(clients) =>
      c.global == s.global && SameButUse(c.clients, s.clients) && SameButUse(clients, s.clients)
    case _ => c.global == s.global && SameButUse(c.clients, s.clients)
  }

  /** The shown token's client is on every list that is or may become the published one. */
  predicate ShownIsListed(w: World) {
    w.shown.Some? ==> (
      && Lists(w.shared.clients, w.shown.value)
      && (Editing(w.main) ==> Lists(w.main.clients, w.shown.value) || w.main.edit == Revoke(w.shown.value))
      && (w.main.PublishingGlobal? ==> Lists(w.main.clients, w.shown.value)))
  }

  predicate Editing(main: Main) {
    main.SavingClients? || main.SavedClients? || main.PublishingClients?
  }

  predicate NewIsListed(w: World) {
    Editing(w.main) && w.main.edit.Create? ==> Lists(w.main.clients, w.main.edit.client.id)
  }

  predicate RevokedIsNotListed(w: World) {
    Editing(w.main) && w.main.edit.Revoke? ==> !Lists(w.main.clients, w.main.edit.id)
  }

  predicate Sound(w: World) {
    Consistent(w) && ShownIsListed(w) && NewIsListed(w) && RevokedIsNotListed(w)
  }

  lemma MarkingIsUse(clients: seq<Client>, id: string, presented: string, nowMs: int)
    ensures SameButUse(Marked(clients, id, presented, nowMs), clients)
  {
  }

  lemma SameButUseChains(a: seq<Client>, b: seq<Client>, c: seq<Client>)
    requires SameButUse(a, b) && SameButUse(b, c)
    ensures SameButUse(a, c)
  {
  }

  lemma StepKeepsSound(w: World, step: Step)
    requires Sound(w) && Enabled(w, step)
    ensures Sound(Next(w, step))
  {
    hide SameButUse, Lists, EditedClients;
    match step {
      case Begin(edit) =>
        if w.shown.Some? {
          EditsListClients(w.shared.clients, edit, w.shown.value);
        }
        if edit.Create? {
          EditsListClients(w.shared.clients, edit, edit.client.id);
        }
        if edit.Revoke? {
          EditsListClients(w.shared.clients, edit, edit.id);
        }
      case BeginUsage => SameAsItself(w.shared.clients);
      case Write(ok) =>
        if w.main.SavingUsage? {
          SameTurned(w.main.clients, w.saved.clients);
          SameButUseChains(w.shared.clients, w.saved.clients, w.main.clients);
        }
      case ReadRest =>
      case Publish => SameAsItself(w.main.clients);
      case SecondHalf(t, nowMs) =>
        var (presented, id) := w.matched[t];
        var marked := Marked(w.shared.clients, id, presented, nowMs);
        MarkingIsUse(w.shared.clients, id, presented, nowMs);
        if w.main.Idle? || !(w.main.SavedClients? || w.main.PublishingClients?) {
          SameButUseChains(marked, w.shared.clients, w.saved.clients);
        }
        if w.shown.Some? {
          SameListsSame(marked, w.shared.clients, w.shown.value);
        }
      case _ =>
    }
  }

  lemma SameAsItself(a: seq<Client>)
    ensures SameButUse(a, a)
  {
  }

  lemma SameTurned(a: seq<Client>, b: seq<Client>)
    requires SameButUse(a, b)
    ensures SameButUse(b, a)
  {
  }

  /**
   * In every interleaving of edits, saves that may fail, and authentications: when the app's thread
   * is idle, the published clients and permissions are the saved ones but for when they were last
   * used, and a token that is shown belongs to a published client.
   */
  lemma {:induction false} PublishedIsSaved(w: World, steps: seq<Step>)
    requires Sound(w) && IsRun(w, steps)
    ensures Sound(After(w, steps))
    ensures var after := After(w, steps);
      after.main.Idle? ==>
        && SameButUse(after.shared.clients, after.saved.clients) && after.shared.global == after.saved.global
        && (after.shown.Some? ==> Lists(after.shared.clients, after.shown.value))
    decreases steps
  {
    if steps != [] {
      StepKeepsSound(w, steps[0]);
      hide Sound, Next, Enabled;
      PublishedIsSaved(Next(w, steps[0]), steps[1..]);
    }
  }

  /** A write that fails publishes nothing and changes nothing that is saved. */
  lemma FailedWritePublishesNothing(w: World)
    requires Enabled(w, Write(false))
    ensures var after := Next(w, Write(false));
      after.main.Idle? && after.saved == w.saved && after.shared.(dirty := w.shared.dirty) == w.shared
        && after.shown == w.shown
  {
  }

  /** After a load that failed, nothing is ever written, published or let in. */
  lemma {:induction false} UnreadableIsNeverWritten(w: World, steps: seq<Step>)
    requires w.loadFailed && w.main.Idle? && w.shared.clients == [] && w.matched == map[] && IsRun(w, steps)
    ensures var after := After(w, steps);
      after.saved == w.saved && after.shared == w.shared && after.matched == map[] && after.main.Idle?
    decreases steps
  {
    if steps != [] {
      UnreadableIsNeverWritten(Next(w, steps[0]), steps[1..]);
    }
  }

  // MARK: Who gets in

  /** Whoever is let in is listed at that moment, with the verifier that was presented. */
  lemma IdentityHasTheVerifier(w: World, t: nat)
    requires t in w.matched && Identity(w, t).Some?
    ensures exists c <- w.shared.clients :: c.id == Identity(w, t).value && c.verifier == w.matched[t].0
  {
    var i := Holder(w.shared.clients, w.matched[t].1, w.matched[t].0).value;
    assert w.shared.clients[i] in w.shared.clients;
  }

  /** No list has the client: neither what is saved nor what is or may become published. */
  predicate Absent(w: World, id: string) {
    && !Lists(w.saved.clients, id) && !Lists(w.shared.clients, id)
    && (Editing(w.main) || w.main.PublishingGlobal? || w.main.SavingUsage? ==> !Lists(w.main.clients, id))
  }

  /** Publishing a revocation leaves the client on no list and hides its token. */
  lemma RevokingTakesEffect(w: World, id: string)
    requires w.main.PublishingClients? && w.main.edit == Revoke(id) && Sound(w)
    ensures Absent(Next(w, Publish), id) && Next(w, Publish).shown != Some(id)
  {
  }

  /** The write succeeds; otherwise only authentications of other threads happen. */
  predicate Succeeds(steps: seq<Step>) {
    forall step <- steps :: step == Write(true) || step.ReadRest? || step.FirstHalf? || step.SecondHalf?
  }

  lemma {:induction false} StillRevoking(w: World, steps: seq<Step>, id: string)
    requires Sound(w) && Editing(w.main) && w.main.edit == Revoke(id) && IsRun(w, steps) && Succeeds(steps)
    ensures var after := After(w, steps); Sound(after) && Editing(after.main) && after.main.edit == Revoke(id)
    decreases steps
  {
    if steps != [] {
      assert steps[0] in steps && Succeeds(steps[1..]);
      StepKeepsSound(w, steps[0]);
      hide Sound;
      StillRevoking(Next(w, steps[0]), steps[1..], id);
    }
  }

  /**
   * From the request to the publication: whatever authenticates meanwhile, a revocation whose write
   * succeeds ends with the client on no list, saved or published, and its token hidden.
   */
  lemma RevocationRuns(w: World, id: string, steps: seq<Step>)
    requires Sound(w) && Enabled(w, Begin(Revoke(id))) && IsRun(Next(w, Begin(Revoke(id))), steps) && Succeeds(steps)
    requires Enabled(After(Next(w, Begin(Revoke(id))), steps), Publish)
    ensures var after := Next(After(Next(w, Begin(Revoke(id))), steps), Publish);
      Absent(after, id) && after.shown != Some(id)
  {
    StepKeepsSound(w, Begin(Revoke(id)));
    hide Sound, Absent;
    StillRevoking(Next(w, Begin(Revoke(id))), steps, id);
    RevokingTakesEffect(After(Next(w, Begin(Revoke(id))), steps), id);
  }

  lemma StepKeepsAbsent(w: World, step: Step, id: string)
    requires Absent(w, id) && Enabled(w, step) && (step.Begin? && step.edit.Create? ==> step.edit.client.id != id)
    ensures Absent(Next(w, step), id)
  {
    match step {
      case Begin(edit) =>
        hide Lists;
        EditsListClients(w.shared.clients, edit, id);
      case SecondHalf(t, nowMs) =>
        var (presented, named) := w.matched[t];
        MarkingIsUse(w.shared.clients, named, presented, nowMs);
        hide Lists;
        SameListsSame(Marked(w.shared.clients, named, presented, nowMs), w.shared.clients, id);
      case _ =>
        hide Lists;
    }
  }

  /** A revoked client stays out and lets nobody in, not even an authentication that was half done. */
  lemma {:induction false} RevokedStaysOut(w: World, steps: seq<Step>, id: string)
    requires Absent(w, id) && IsRun(w, steps)
    requires forall step <- steps :: step.Begin? && step.edit.Create? ==> step.edit.client.id != id
    ensures Absent(After(w, steps), id)
    ensures forall t <- After(w, steps).matched :: Identity(After(w, steps), t) != Some(id)
    decreases steps
  {
    if steps == [] {
      forall t | t in w.matched ensures Identity(w, t) != Some(id) {
        if Identity(w, t).Some? {
          IdentityHasTheVerifier(w, t);
        }
      }
    } else {
      assert steps[0] in steps;
      StepKeepsAbsent(w, steps[0], id);
      hide Absent, Next, Enabled;
      RevokedStaysOut(Next(w, steps[0]), steps[1..], id);
    }
  }

  // MARK: Who gets in

  /** Nobody else can end an authentication between its halves. */
  predicate Leaves(steps: seq<Step>, t: nat) {
    forall step <- steps :: step.SecondHalf? ==> step.t != t
  }

  lemma {:induction false} MatchedStays(w: World, steps: seq<Step>, t: nat)
    requires IsRun(w, steps) && Leaves(steps, t) && t in w.matched
    ensures t in After(w, steps).matched && After(w, steps).matched[t] == w.matched[t]
    decreases steps
  {
    if steps != [] {
      assert steps[0] in steps && Leaves(steps[1..], t);
      assert t in Next(w, steps[0]).matched && Next(w, steps[0]).matched[t] == w.matched[t];
      hide Next, Enabled;
      MatchedStays(Next(w, steps[0]), steps[1..], t);
    }
  }

  /**
   * A token that some client has is let in, as the last such client, if and only if that client
   * still has it when the second half looks; a token no client has is refused at once.
   */
  lemma TokensAreLetInWhileListed(w: World, steps: seq<Step>, t: nat, presented: string)
    requires t !in w.matched
    requires Enabled(w, FirstHalf(t, presented)) ==>
      IsRun(Next(w, FirstHalf(t, presented)), steps) && Leaves(steps, t)
    ensures Enabled(w, FirstHalf(t, presented)) <==> exists c <- w.shared.clients :: c.verifier == presented
    ensures Enabled(w, FirstHalf(t, presented)) ==>
      exists i :: 0 <= i < |w.shared.clients| && IsLastWith(w.shared.clients, i, presented) && (
        var after, id := After(Next(w, FirstHalf(t, presented)), steps), w.shared.clients[i].id;
        && t in after.matched
        && Identity(after, t) == if exists c <- after.shared.clients :: c.id == id && c.verifier == presented
                                 then Some(id) else None)
  {
    MatchFindsTheVerifier(w.shared.clients, presented);
    if Enabled(w, FirstHalf(t, presented)) {
      MatchedStays(Next(w, FirstHalf(t, presented)), steps, t);
      var id := Matched(w.shared.clients, presented).value;
      var i :| 0 <= i < |w.shared.clients| && w.shared.clients[i].id == id
        && IsLastWith(w.shared.clients, i, presented);
      hide After, IsRun, Matched, Leaves;
      var after := After(Next(w, FirstHalf(t, presented)), steps);
      assert after.matched[t] == (presented, id);
      assert Identity(after, t) == if Holder(after.shared.clients, id, presented).Some? then Some(id) else None;
      hide Next;
      assert w.shared.clients[i] in w.shared.clients;
    }
  }

  // MARK: How many

  predicate AtMostSixteen(w: World) {
    && |w.saved.clients| <= 16 && |w.shared.clients| <= 16
    && match w.main
       case SavingClients(clients, _) => |clients| <= 16
       case SavedClients(clients, _) => |clients| <= 16
       case PublishingClients(clients, _, _) => |clients| <= 16
       case PublishingGlobal(_, clients) => |clients| <= 16
       case SavingUsage(clients) => |clients| <= 16
       case _ => true
  }

  lemma {:induction false} EditsStayWithinSixteen(clients: seq<Client>, edit: Edit)
    requires |clients| <= 16 && Allowed(clients, edit)
    ensures |EditedClients(clients, edit)| <= 16
  {
    if edit.Revoke? {
      WithoutIsNoLonger(clients, edit.id);
    }
  }

  lemma {:induction false} WithoutIsNoLonger(clients: seq<Client>, id: string)
    ensures |WithoutClient(clients, id)| <= |clients|
  {
    if clients != [] {
      WithoutIsNoLonger(clients[1..], id);
    }
  }

  /** There are never more than sixteen clients, and a list with fewer takes another. */
  lemma {:induction false} NeverMoreThanSixteen(w: World, steps: seq<Step>)
    requires AtMostSixteen(w) && IsRun(w, steps)
    ensures AtMostSixteen(After(w, steps))
    ensures forall client: Client :: After(w, steps).main.Idle? && !After(w, steps).loadFailed ==>
      (Enabled(After(w, steps), Begin(Create(client))) <==> |After(w, steps).shared.clients| < 16)
    decreases steps
  {
    if steps != [] {
      if steps[0].Begin? {
        EditsStayWithinSixteen(w.shared.clients, steps[0].edit);
      }
      hide EditedClients, Matched, Holder;
      assert AtMostSixteen(Next(w, steps[0]));
      hide Next, Enabled, AtMostSixteen;
      NeverMoreThanSixteen(Next(w, steps[0]), steps[1..]);
    }
  }

  // MARK: When they were last used

  /** Unless some use is still marked to be saved, what is saved is what is published, use times and all. */
  predicate UsesAreSaved(w: World) {
    match w.main
    case SavedClients(clients, _) => w.saved.clients == clients
    case PublishingClients(clients, _, _) => w.saved.clients == clients
    case PublishingGlobal(_, clients) => !w.shared.dirty ==> w.saved.clients == w.shared.clients == clients
    case SavingUsage(clients) => !w.shared.dirty ==> w.shared.clients == clients
    case _ => !w.shared.dirty ==> w.saved.clients == w.shared.clients
  }

  /** However edits, saves that fail and authentications interleave, no use is taken for saved that is not. */
  lemma {:induction false} UsesAreSavedOrDue(w: World, steps: seq<Step>)
    requires UsesAreSaved(w) && IsRun(w, steps)
    ensures UsesAreSaved(After(w, steps))
    ensures var after := After(w, steps);
      after.main.Idle? && !after.shared.dirty ==> after.saved.clients == after.shared.clients
    decreases steps
  {
    if steps != [] {
      assert UsesAreSaved(Next(w, steps[0])) by {
        hide EditedClients, Matched, Holder;
      }
      hide Next, Enabled, UsesAreSaved;
      UsesAreSavedOrDue(Next(w, steps[0]), steps[1..]);
    }
  }

  predicate IsNoted(
    before: seq<Client>, i: nat, id: string, presented: string, nowMs: int, after: seq<Client>
  )
    requires i < |before|
  {
    && before[i].id == id && before[i].verifier == presented
    && after == before[i := before[i].(lastUsed := Some(nowMs))]
  }

  /** Whoever is let in has that moment noted, and nobody else is touched. */
  lemma UsesAreNoted(w: World, t: nat, nowMs: int)
    requires t in w.matched
    ensures var after, (presented, id) := Next(w, SecondHalf(t, nowMs)), w.matched[t];
      && SameButUse(after.shared.clients, w.shared.clients)
      && (Identity(w, t).None? ==> after.shared == w.shared)
      && (Identity(w, t).Some? ==>
            && after.shared.dirty
            && (exists i ::
              0 <= i < |w.shared.clients|
              && IsNoted(w.shared.clients, i, id, presented, nowMs, after.shared.clients)))
  {
    var (presented, id) := w.matched[t];
    if Identity(w, t).Some? {
      var i := Holder(w.shared.clients, id, presented).value;
      assert IsNoted(w.shared.clients, i, id, presented, nowMs, Next(w, SecondHalf(t, nowMs)).shared.clients);
    }
  }

  // MARK: What goes through

  lemma FourSteps(w: World, a: Step, b: Step, c: Step, d: Step)
    requires Enabled(w, a) && Enabled(Next(w, a), b) && Enabled(Next(Next(w, a), b), c)
    requires Enabled(Next(Next(Next(w, a), b), c), d)
    ensures IsRun(w, [a, b, c, d]) && After(w, [a, b, c, d]) == Next(Next(Next(Next(w, a), b), c), d)
  {
    hide Enabled, Next;
    var w1 := Next(w, a);
    var w2 := Next(w1, b);
    var w3 := Next(w2, c);
    var end := Next(w3, d);
    assert [a, b, c, d][1..] == [b, c, d] && [b, c, d][1..] == [c, d] && [c, d][1..] == [d] && [d][1..] == [];
    assert IsRun(end, []) && After(end, []) == end;
    assert IsRun(w3, [d]) && After(w3, [d]) == end;
    assert IsRun(w2, [c, d]) && After(w2, [c, d]) == end;
    assert IsRun(w1, [b, c, d]) && After(w1, [b, c, d]) == end;
  }

  /** Undisturbed, an edit that may be made and is written ends saved and published. */
  lemma EditsGoThrough(w: World, edit: Edit)
    requires w.main.Idle? && !w.loadFailed && (edit.Create? ==> |w.shared.clients| < 16)
    ensures var steps := [Begin(edit), Write(true), ReadRest, Publish];
      && IsRun(w, steps)
      && var after := After(w, steps);
        && after.saved.clients == after.shared.clients == EditedClients(w.shared.clients, edit)
        && after.shared.global == w.shared.global && after.main.Idle?
        && after.shown == match edit
                          case Create(client) => Some(client.id)
                          case Revoke(id) => if w.shown == Some(id) then None else w.shown
                          case SetPermissions(_, _) => w.shown
  {
    hide EditedClients;
    FourSteps(w, Begin(edit), Write(true), ReadRest, Publish);
  }

  lemma GlobalsGoThrough(w: World, global: set<nat>)
    requires w.main.Idle? && !w.loadFailed
    ensures var steps := [BeginGlobal(global), Write(true), ReadRest, Publish];
      && IsRun(w, steps)
      && var after := After(w, steps);
        && after.saved.global == after.shared.global == global && after.main.Idle?
        && after.saved.clients == w.saved.clients && after.shared.clients == w.shared.clients
  {
    var w2 := Next(Next(w, BeginGlobal(global)), Write(true));
    assert w2 == w.(saved := w.saved.(global := global), main := SavedGlobal(global));
    var w3 := Next(w2, ReadRest);
    assert w3 == w2.(main := PublishingGlobal(global, w.shared.clients));
    FourSteps(w, BeginGlobal(global), Write(true), ReadRest, Publish);
  }

  /** Saving the uses saves them all, or leaves them marked. */
  lemma UsesGoThrough(w: World, ok: bool)
    requires w.main.Idle? && !w.loadFailed && w.shared.dirty
    ensures Enabled(w, BeginUsage) && Enabled(Next(w, BeginUsage), Write(ok))
    ensures var after := Next(Next(w, BeginUsage), Write(ok));
      && after.saved.clients == (if ok then w.shared.clients else w.saved.clients)
      && after.shared.dirty == !ok && after.shared.clients == w.shared.clients && after.main.Idle?
  {
  }
}
