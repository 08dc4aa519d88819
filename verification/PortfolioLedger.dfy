// The portfolio ledger and the value history derived from it: what edits do to stored points. See
// src/model/portfolio_ledger.rs and src/model/portfolio_history.rs.
module PortfolioLedger {
  import opened Text

  /** `notes` stands for what the fingerprint does not cover: notes and the currencies of price and fee. */
  datatype Tx = Tx(id: nat, portfolio: nat, key: string, timestamp: int, updatedAt: int, body: nat, notes: string)

  /** A daily value, with the transactions it was computed from. */
  datatype Point = Point(portfolio: nat, timestamp: int, basis: multiset<Tx>)

  datatype Portfolio = Portfolio(id: nat, name: string, archived: bool)

  datatype Ledger = Ledger(
    portfolios: seq<Portfolio>, transactions: seq<Tx>, history: seq<Point>, stale: map<nat, int>, selected: Option<nat>)

  predicate HasPortfolio(l: Ledger, id: nat) {
    exists p <- l.portfolios :: p.id == id
  }

  // MARK: What a point depends on

  /** The transactions of a portfolio up to a time. */
  function Relevant(txs: seq<Tx>, p: nat, t: int): seq<Tx> {
    if txs == [] then []
    else if Matters(txs[0], p, t) then [txs[0]] + Relevant(txs[1..], p, t)
    else Relevant(txs[1..], p, t)
  }

  predicate Matters(tx: Tx, p: nat, t: int) {
    tx.portfolio == p && tx.timestamp <= t
  }

  function OwnOf(txs: seq<Tx>, p: nat): seq<Tx> {
    if txs == [] then []
    else if txs[0].portfolio == p then [txs[0]] + OwnOf(txs[1..], p)
    else OwnOf(txs[1..], p)
  }

  /** Every stored point was computed from exactly the transactions it depends on now. */
  predicate HistoryIsSound(l: Ledger) {
    forall point <- l.history :: point.basis == multiset(Relevant(l.transactions, point.portfolio, point.timestamp))
  }

  lemma {:induction false} RelevantJoins(a: seq<Tx>, b: seq<Tx>, p: nat, t: int)
    ensures Relevant(a + b, p, t) == Relevant(a, p, t) + Relevant(b, p, t)
  {
    hide Matters;
    if a == [] {
      assert a + b == b;
    } else {
      RelevantJoins(a[1..], b, p, t);
      var x, y := Relevant(a[1..], p, t), Relevant(b, p, t);
      assert (a + b)[1..] == a[1..] + b && (a + b)[0] == a[0];
      assert [a[0]] + (x + y) == [a[0]] + x + y;
    }
  }

  /** Transactions that do not matter for a point may be anything. */
  lemma {:induction false} OnlyRelevantMatter(a: seq<Tx>, b: seq<Tx>, p: nat, t: int)
    requires |a| == |b|
    requires forall i :: 0 <= i < |a| ==> a[i] == b[i] || (!Matters(a[i], p, t) && !Matters(b[i], p, t))
    ensures Relevant(a, p, t) == Relevant(b, p, t)
  {
    if a != [] {
      forall i | 0 <= i < |a| - 1
        ensures a[1..][i] == b[1..][i] || (!Matters(a[1..][i], p, t) && !Matters(b[1..][i], p, t)) {
        assert a[1..][i] == a[i + 1] && b[1..][i] == b[i + 1];
      }
      OnlyRelevantMatter(a[1..], b[1..], p, t);
    }
  }

  lemma {:induction false} NoneRelevant(txs: seq<Tx>, p: nat, t: int)
    requires forall tx <- txs :: !Matters(tx, p, t)
    ensures Relevant(txs, p, t) == []
  {
    if txs != [] {
      NoneRelevant(txs[1..], p, t);
    }
  }

  // MARK: Edits

  function Min(a: int, b: int): int {
    if b < a then b else a
  }

  function PointsBefore(history: seq<Point>, p: nat, date: int): (kept: seq<Point>)
    ensures forall point :: point in kept <==> point in history && (point.portfolio != p || point.timestamp < date)
  {
    if history == [] then []
    else
      var n := |history| - 1;
      PointsBefore(history[..n], p, date)
        + if history[n].portfolio != p || history[n].timestamp < date then [history[n]] else []
  }

  /** Drops the points an edit at `date` can change, and marks the portfolio stale from there. */
  function Invalidated(l: Ledger, p: nat, date: int): Ledger {
    l.(stale := l.stale[p := if p in l.stale then Min(l.stale[p], date) else date],
      history := PointsBefore(l.history, p, date))
  }

  function InvalidatedAll(l: Ledger, txs: seq<Tx>): Ledger {
    if txs == [] then l
    else
      var n := |txs| - 1;
      Invalidated(InvalidatedAll(l, txs[..n]), txs[n].portfolio, txs[n].timestamp)
  }

  function WithoutId(txs: seq<Tx>, id: nat): seq<Tx> {
    if txs == [] then []
    else if txs[0].id == id then WithoutId(txs[1..], id)
    else [txs[0]] + WithoutId(txs[1..], id)
  }

  function WithoutPortfolio(txs: seq<Tx>, p: nat): seq<Tx> {
    if txs == [] then []
    else if txs[0].portfolio == p then WithoutPortfolio(txs[1..], p)
    else [txs[0]] + WithoutPortfolio(txs[1..], p)
  }

  function PositionOf(txs: seq<Tx>, id: nat): (i: Option<nat>)
    ensures i.Some? ==> i.value < |txs| && txs[i.value].id == id
    ensures i.None? ==> forall tx <- txs :: tx.id != id
  {
    if txs == [] then None
    else if txs[0].id == id then Some(0)
    else
      match PositionOf(txs[1..], id)
      case None => None
      case Some(i) => Some(i + 1)
  }

  /** A transaction whose asset is bound to another one. */
  function Rebound(tx: Tx, key: string, to: string, ids: set<nat>, now: int): Tx {
    if tx.portfolio in ids && tx.key == key then tx.(key := to, updatedAt := now) else tx
  }

  function Remapped(txs: seq<Tx>, key: string, to: string, ids: set<nat>, now: int): (after: seq<Tx>)
    ensures |after| == |txs| && forall i :: 0 <= i < |txs| ==> after[i] == Rebound(txs[i], key, to, ids, now)
  {
    seq(|txs|, i requires 0 <= i < |txs| => Rebound(txs[i], key, to, ids, now))
  }

  function Affected(txs: seq<Tx>, key: string, ids: set<nat>): seq<Tx> {
    if txs == [] then []
    else if txs[0].portfolio in ids && txs[0].key == key then [txs[0]] + Affected(txs[1..], key, ids)
    else Affected(txs[1..], key, ids)
  }

  /**
   * A change of the ledger; `valid` is whether what it leaves can be replayed. `Receive` is a
   * transaction from another Mac, which sync puts in the place of its older version.
   */
  datatype Edit =
    | Describe(portfolios: seq<Portfolio>, selected: Option<nat>)
    | Duplicate(original: nat, copy: Portfolio, copies: seq<Tx>, now: int)
    | DeletePortfolio(portfolio: nat, selected: Option<nat>)
    | Add(tx: Tx, valid: bool)
    | Update(tx: Tx, valid: bool)
    | Delete(id: nat, valid: bool)
    | Remap(key: string, to: string, ids: set<nat>, now: int, valid: bool)
    | Import(txs: seq<Tx>, valid: bool)
    | Receive(tx: Tx)

  function Earliest(txs: seq<Tx>, otherwise: int): int {
    if txs == [] then otherwise
    else if |txs| == 1 then txs[0].timestamp
    else Min(txs[0].timestamp, Earliest(txs[1..], otherwise))
  }

  /** The list without a portfolio. */
  function Unlisted(portfolios: seq<Portfolio>, id: nat): seq<Portfolio> {
    if portfolios == [] then []
    else if portfolios[0].id == id then Unlisted(portfolios[1..], id)
    else [portfolios[0]] + Unlisted(portfolios[1..], id)
  }

  /** Every portfolio an edit names is listed. */
  predicate Names(l: Ledger, edit: Edit) {
    match edit
    case Duplicate(original, _, _, _) => HasPortfolio(l, original)
    case DeletePortfolio(p, _) => HasPortfolio(l, p)
    case Add(tx, _) => HasPortfolio(l, tx.portfolio)
    case Update(tx, _) => HasPortfolio(l, tx.portfolio)
    case Import(txs, _) => forall tx <- txs :: HasPortfolio(l, tx.portfolio)
    case Receive(tx) => HasPortfolio(l, tx.portfolio)
    case _ => true
  }

  /** The ledger after an edit, or nothing when it is refused. */
  function Edited(l: Ledger, edit: Edit): Option<Ledger> {
    if Names(l, edit) then Changed(l, edit) else None
  }

  /** What an edit makes of the ledger once its portfolios are there. */
  function Changed(l: Ledger, edit: Edit): Option<Ledger> {
    match edit
    case Describe(portfolios, selected) => Some(l.(portfolios := portfolios, selected := selected))
    case Duplicate(_, copy, copies, now) =>
      Some(Invalidated(l.(portfolios := l.portfolios + [copy], transactions := l.transactions + copies,
        selected := Some(copy.id)),
                       copy.id, Earliest(copies, now)))
    case DeletePortfolio(p, selected) =>
      Some(l.(portfolios := Unlisted(l.portfolios, p), transactions := WithoutPortfolio(l.transactions, p),
              history := PointsOfOthers(l.history, p), stale := l.stale - {p}, selected := selected))
    case Add(tx, valid) =>
      if !valid then None else Some(Invalidated(l.(transactions := l.transactions + [tx]), tx.portfolio, tx.timestamp))
    case Update(tx, valid) =>
      (match PositionOf(l.transactions, tx.id)
       case None => None
       case Some(i) =>
         var was := l.transactions[i];
         if !valid then None
         else
           var changed := Invalidated(l.(transactions := l.transactions[i := tx]), was.portfolio,
             Min(was.timestamp, tx.timestamp));
           Some(if was.portfolio != tx.portfolio then Invalidated(changed, tx.portfolio, tx.timestamp) else changed))
    case Delete(id, valid) =>
      (match PositionOf(l.transactions, id)
       case None => None
       case Some(i) =>
         var was := l.transactions[i];
         if !valid then None
         else Some(Invalidated(l.(transactions := WithoutId(l.transactions, id)), was.portfolio, was.timestamp)))
    case Remap(key, to, ids, now, valid) =>
      var affected := Affected(l.transactions, key, ids);
      if key == to || affected == [] then Some(l)
      else if !valid then None
      else Some(InvalidatedAll(l.(transactions := Remapped(l.transactions, key, to, ids, now)), affected))
    case Import(txs, valid) =>
      if !valid then None else Some(InvalidatedAll(l.(transactions := l.transactions + txs), txs))
    case Receive(tx) =>
      (match PositionOf(l.transactions, tx.id)
       case None => Some(Invalidated(l.(transactions := l.transactions + [tx]), tx.portfolio, tx.timestamp))
       case Some(i) =>
         var was := l.transactions[i];
         var changed := Invalidated(l.(transactions := l.transactions[i := tx]), tx.portfolio,
           Min(was.timestamp, tx.timestamp));
         Some(if was.portfolio != tx.portfolio then Invalidated(changed, was.portfolio, was.timestamp) else changed))
  }

  function PointsOfOthers(history: seq<Point>, p: nat): (kept: seq<Point>)
    ensures forall point :: point in kept <==> point in history && point.portfolio != p
  {
    if history == [] then []
    else
      var n := |history| - 1;
      PointsOfOthers(history[..n], p) + if history[n].portfolio != p then [history[n]] else []
  }

  /** Every id once, which deleting by id relies on. */
  predicate UniqueIds(txs: seq<Tx>) {
    forall i, j :: 0 <= i < j < |txs| ==> txs[i].id != txs[j].id
  }

  // MARK: Edits keep the history sound

  /** A change that leaves every remaining point the transactions it depends on. */
  predicate Harmless(before: Ledger, after: Ledger) {
    forall point <- after.history ::
      point in before.history
      && Relevant(after.transactions, point.portfolio, point.timestamp)
        == Relevant(before.transactions, point.portfolio, point.timestamp)
  }

  lemma {:induction false} InvalidatedAllDrops(l: Ledger, txs: seq<Tx>)
    ensures InvalidatedAll(l, txs).transactions == l.transactions
    ensures forall point <- InvalidatedAll(l, txs).history :: point in l.history && forall tx <- txs ::
      !Matters(tx, point.portfolio, point.timestamp)
  {
    if txs != [] {
      var n := |txs| - 1;
      InvalidatedAllDrops(l, txs[..n]);
      assert txs == txs[..n] + [txs[n]];
    }
  }

  lemma {:induction false} EarliestIsEarliest(txs: seq<Tx>, otherwise: int)
    ensures forall tx <- txs :: Earliest(txs, otherwise) <= tx.timestamp
  {
    if |txs| > 1 {
      EarliestIsEarliest(txs[1..], otherwise);
      assert txs == [txs[0]] + txs[1..];
    }
  }

  lemma {:induction false} WithoutIdKeeps(txs: seq<Tx>, id: nat, p: nat, t: int)
    requires forall tx <- txs :: tx.id == id ==> !Matters(tx, p, t)
    ensures Relevant(WithoutId(txs, id), p, t) == Relevant(txs, p, t)
  {
    if txs != [] {
      WithoutIdKeeps(txs[1..], id, p, t);
      assert txs[0] in txs;
      if txs[0].id != id {
        assert WithoutId(txs, id)[1..] == WithoutId(txs[1..], id);
      }
    }
  }

  lemma {:induction false} WithoutPortfolioKeeps(txs: seq<Tx>, q: nat, p: nat, t: int)
    requires p != q
    ensures Relevant(WithoutPortfolio(txs, q), p, t) == Relevant(txs, p, t)
  {
    if txs != [] {
      WithoutPortfolioKeeps(txs[1..], q, p, t);
      if txs[0].portfolio != q {
        assert WithoutPortfolio(txs, q)[1..] == WithoutPortfolio(txs[1..], q);
      }
    }
  }

  lemma {:induction false} AffectedAll(txs: seq<Tx>, key: string, ids: set<nat>)
    ensures forall tx <- txs :: tx.portfolio in ids && tx.key == key ==> tx in Affected(txs, key, ids)
  {
    if txs != [] {
      AffectedAll(txs[1..], key, ids);
      assert txs == [txs[0]] + txs[1..];
    }
  }

  lemma AppendIsHarmless(l: Ledger, after: Ledger, txs: seq<Tx>)
    requires after.transactions == l.transactions + txs
    requires forall point <- after.history :: point in l.history && forall tx <- txs ::
      !Matters(tx, point.portfolio, point.timestamp)
    ensures Harmless(l, after)
  {
    forall point | point in after.history
      ensures Relevant(after.transactions, point.portfolio, point.timestamp)
        == Relevant(l.transactions, point.portfolio, point.timestamp)
    {
      RelevantJoins(l.transactions, txs, point.portfolio, point.timestamp);
      NoneRelevant(txs, point.portfolio, point.timestamp);
    }
  }

  lemma PointwiseIsHarmless(l: Ledger, after: Ledger)
    requires |after.transactions| == |l.transactions|
    requires forall point <- after.history :: point in l.history
    requires forall i, point ::
      0 <= i < |l.transactions| && point in after.history && l.transactions[i] != after.transactions[i] ==>
      !Matters(l.transactions[i], point.portfolio, point.timestamp)
        && !Matters(after.transactions[i], point.portfolio, point.timestamp)
    ensures Harmless(l, after)
  {
    forall point | point in after.history
      ensures Relevant(after.transactions, point.portfolio, point.timestamp)
        == Relevant(l.transactions, point.portfolio, point.timestamp)
    {
      OnlyRelevantMatter(after.transactions, l.transactions, point.portfolio, point.timestamp);
    }
  }

  lemma UpdateIsHarmless(l: Ledger, tx: Tx)
    requires Edited(l, Update(tx, true)).Some?
    ensures Harmless(l, Edited(l, Update(tx, true)).value)
  {
    PointwiseIsHarmless(l, Edited(l, Update(tx, true)).value);
  }

  lemma ReceiveIsHarmless(l: Ledger, tx: Tx)
    requires Edited(l, Receive(tx)).Some?
    ensures Harmless(l, Edited(l, Receive(tx)).value)
  {
    var after := Edited(l, Receive(tx)).value;
    if PositionOf(l.transactions, tx.id).Some? {
      PointwiseIsHarmless(l, after);
    } else {
      AppendIsHarmless(l, after, [tx]);
    }
  }

  lemma DeleteIsHarmless(l: Ledger, id: nat)
    requires UniqueIds(l.transactions) && Edited(l, Delete(id, true)).Some?
    ensures Harmless(l, Edited(l, Delete(id, true)).value)
  {
    var after, i := Edited(l, Delete(id, true)).value, PositionOf(l.transactions, id).value;
    forall point | point in after.history
      ensures Relevant(after.transactions, point.portfolio, point.timestamp)
        == Relevant(l.transactions, point.portfolio, point.timestamp)
    {
      forall tx | tx in l.transactions && tx.id == id ensures tx == l.transactions[i] {
        var j :| 0 <= j < |l.transactions| && l.transactions[j] == tx;
      }
      WithoutIdKeeps(l.transactions, id, point.portfolio, point.timestamp);
    }
  }

  lemma RemapIsHarmless(l: Ledger, key: string, to: string, ids: set<nat>, now: int)
    requires key != to && Affected(l.transactions, key, ids) != []
    ensures Harmless(l, Edited(l, Remap(key, to, ids, now, true)).value)
  {
    var affected := Affected(l.transactions, key, ids);
    var remapped := l.(transactions := Remapped(l.transactions, key, to, ids, now));
    InvalidatedAllDrops(remapped, affected);
    AffectedAll(l.transactions, key, ids);
    PointwiseIsHarmless(l, InvalidatedAll(remapped, affected));
  }

  lemma DeletePortfolioIsHarmless(l: Ledger, p: nat, selected: Option<nat>)
    requires HasPortfolio(l, p)
    ensures Harmless(l, Edited(l, DeletePortfolio(p, selected)).value)
  {
    var after := Edited(l, DeletePortfolio(p, selected)).value;
    forall point | point in after.history
      ensures Relevant(after.transactions, point.portfolio, point.timestamp)
        == Relevant(l.transactions, point.portfolio, point.timestamp)
    {
      WithoutPortfolioKeeps(l.transactions, p, point.portfolio, point.timestamp);
    }
  }

  /** Copies belong to the new portfolio. */
  predicate WellFormed(edit: Edit) {
    edit.Duplicate? ==> forall tx <- edit.copies :: tx.portfolio == edit.copy.id
  }

  /**
   * No edit leaves a point that was computed from other transactions than it depends on now: what
   * an edit can change is dropped with it, and everything else stays.
   */
  lemma EditsKeepHistorySound(l: Ledger, edit: Edit)
    requires HistoryIsSound(l) && UniqueIds(l.transactions) && WellFormed(edit) && Edited(l, edit).Some?
    ensures HistoryIsSound(Edited(l, edit).value)
  {
    var after := Edited(l, edit).value;
    match edit {
      case Describe(_, _) =>
      case Duplicate(_, copy, copies, now) =>
        EarliestIsEarliest(copies, now);
        AppendIsHarmless(l, after, copies);
      case DeletePortfolio(p, selected) => DeletePortfolioIsHarmless(l, p, selected);
      case Add(tx, _) => AppendIsHarmless(l, after, [tx]);
      case Update(tx, _) => UpdateIsHarmless(l, tx);
      case Delete(id, _) => DeleteIsHarmless(l, id);
      case Remap(key, to, ids, now, _) =>
        if key != to && Affected(l.transactions, key, ids) != [] {
          RemapIsHarmless(l, key, to, ids, now);
        }
      case Import(txs, _) =>
        InvalidatedAllDrops(l.(transactions := l.transactions + txs), txs);
        AppendIsHarmless(l, after, txs);
      case Receive(tx) => ReceiveIsHarmless(l, tx);
    }
    hide Edited, Relevant;
    assert Harmless(l, after);
  }

  // MARK: What edits do

  /** The transactions by their ids. */
  function ById(txs: seq<Tx>): (m: map<nat, Tx>)
    ensures forall id :: id in m <==> exists i :: 0 <= i < |txs| && txs[i].id == id
  {
    if txs == [] then map[] else ById(txs[..|txs| - 1])[txs[|txs| - 1].id := txs[|txs| - 1]]
  }

  /** What the edit asks for, told by ids. */
  function Asked(m: map<nat, Tx>, edit: Edit): map<nat, Tx> {
    match edit
    case Describe(_, _) => m
    case Duplicate(_, _, copies, _) => m + ById(copies)
    case DeletePortfolio(p, _) => map id <- m | m[id].portfolio != p :: m[id]
    case Add(tx, _) => m[tx.id := tx]
    case Update(tx, _) => m[tx.id := tx]
    case Delete(id, _) => m - {id}
    case Remap(key, to, ids, now, _) =>
      if key == to then m
      else
        map id <- m ::
          if m[id].portfolio in ids && m[id].key == key then m[id].(key := to, updatedAt := now) else m[id]
    case Import(txs, _) => m + ById(txs)
    case Receive(tx) => m[tx.id := tx]
  }

  lemma {:induction false} ByIdFinds(txs: seq<Tx>, i: nat)
    requires UniqueIds(txs) && i < |txs|
    ensures ById(txs)[txs[i].id] == txs[i]
  {
    var n := |txs| - 1;
    if i < n {
      ByIdFinds(txs[..n], i);
      assert txs[..n][i] == txs[i];
    }
  }

  lemma IdIsOf(txs: seq<Tx>, id: nat)
    requires UniqueIds(txs) && id in ById(txs)
    ensures ById(txs)[id] in txs && ById(txs)[id].id == id
  {
    var i :| 0 <= i < |txs| && txs[i].id == id;
    ByIdFinds(txs, i);
  }

  lemma TxIsById(txs: seq<Tx>, tx: Tx)
    requires UniqueIds(txs) && tx in txs
    ensures tx.id in ById(txs) && ById(txs)[tx.id] == tx
  {
    var i :| 0 <= i < |txs| && txs[i] == tx;
    ByIdFinds(txs, i);
  }

  /** Two lists with the same transactions under the same ids. */
  lemma SameById(txs: seq<Tx>, m: map<nat, Tx>)
    requires UniqueIds(txs)
    requires forall i :: 0 <= i < |txs| ==> txs[i].id in m && m[txs[i].id] == txs[i]
    requires forall id <- m :: exists i :: 0 <= i < |txs| && txs[i].id == id
    ensures ById(txs) == m
  {
    forall id | id in m ensures id in ById(txs) && ById(txs)[id] == m[id] {
      var i :| 0 <= i < |txs| && txs[i].id == id;
      ByIdFinds(txs, i);
    }
    forall id | id in ById(txs) ensures id in m {
      var i :| 0 <= i < |txs| && txs[i].id == id;
    }
  }

  lemma UniqueParts(a: seq<Tx>, b: seq<Tx>)
    requires UniqueIds(a + b)
    ensures UniqueIds(a) && UniqueIds(b)
    ensures forall i, j :: 0 <= i < |a| && 0 <= j < |b| ==> a[i].id != b[j].id
  {
    assert forall i :: 0 <= i < |a| ==> (a + b)[i] == a[i];
    assert forall j :: 0 <= j < |b| ==> (a + b)[|a| + j] == b[j];
  }

  lemma AppendedById(a: seq<Tx>, b: seq<Tx>)
    requires UniqueIds(a + b)
    ensures ById(a + b) == ById(a) + ById(b)
  {
    UniqueParts(a, b);
    hide UniqueIds, ById;
    forall i | 0 <= i < |a + b|
      ensures (a + b)[i].id in ById(a) + ById(b) && (ById(a) + ById(b))[(a + b)[i].id] == (a + b)[i] {
      if i < |a| {
        ByIdFinds(a, i);
      } else {
        ByIdFinds(b, i - |a|);
      }
    }
    forall id | id in ById(a) + ById(b) ensures exists i :: 0 <= i < |a + b| && (a + b)[i].id == id {
      if id in ById(b) {
        var j :| 0 <= j < |b| && b[j].id == id;
        assert (a + b)[|a| + j].id == id;
      } else {
        var j :| 0 <= j < |a| && a[j].id == id;
        assert (a + b)[j].id == id;
      }
    }
    SameById(a + b, ById(a) + ById(b));
  }

  lemma OneById(tx: Tx)
    ensures ById([tx]) == map[tx.id := tx]
  {
    assert [tx][..0] == [] && ById([]) == map[];
  }

  lemma ReplacedById(txs: seq<Tx>, i: nat, tx: Tx)
    requires UniqueIds(txs) && i < |txs| && txs[i].id == tx.id
    ensures ById(txs[i := tx]) == ById(txs)[tx.id := tx]
  {
    var after, m := txs[i := tx], ById(txs)[tx.id := tx];
    forall j | 0 <= j < |after| ensures after[j].id in m && m[after[j].id] == after[j] {
      ByIdFinds(txs, j);
    }
    forall id | id in m ensures exists j :: 0 <= j < |after| && after[j].id == id {
      var j :| 0 <= j < |txs| && txs[j].id == id;
      assert after[j].id == id;
    }
    SameById(after, m);
  }

  /** A list that keeps some of the transactions of another. */
  lemma KeptById(txs: seq<Tx>, kept: seq<Tx>, m: map<nat, Tx>)
    requires UniqueIds(txs) && UniqueIds(kept)
    requires forall tx <- kept :: tx in txs && tx.id in m
    requires forall id <- m :: id in ById(txs) && m[id] == ById(txs)[id] && m[id] in kept
    ensures ById(kept) == m
  {
    forall i | 0 <= i < |kept| ensures kept[i].id in m && m[kept[i].id] == kept[i] {
      assert kept[i] in txs;
      var j :| 0 <= j < |txs| && txs[j] == kept[i];
      ByIdFinds(txs, j);
    }
    forall id | id in m ensures exists i :: 0 <= i < |kept| && kept[i].id == id {
      var i :| 0 <= i < |kept| && kept[i] == m[id];
      var j :| 0 <= j < |txs| && txs[j].id == id;
      ByIdFinds(txs, j);
    }
    SameById(kept, m);
  }

  lemma {:induction false} WithoutIdLeaves(txs: seq<Tx>, id: nat)
    ensures forall tx :: tx in WithoutId(txs, id) <==> tx in txs && tx.id != id
  {
    if txs != [] {
      WithoutIdLeaves(txs[1..], id);
      assert txs == [txs[0]] + txs[1..];
    }
  }

  lemma {:induction false} WithoutPortfolioLeaves(txs: seq<Tx>, p: nat)
    ensures forall tx :: tx in WithoutPortfolio(txs, p) <==> tx in txs && tx.portfolio != p
  {
    if txs != [] {
      WithoutPortfolioLeaves(txs[1..], p);
      assert txs == [txs[0]] + txs[1..];
    }
  }

  lemma {:induction false} NoneAffected(txs: seq<Tx>, key: string, ids: set<nat>)
    ensures Affected(txs, key, ids) == [] <==> forall tx <- txs :: !(tx.portfolio in ids && tx.key == key)
  {
    if txs != [] {
      NoneAffected(txs[1..], key, ids);
      assert txs == [txs[0]] + txs[1..];
    }
  }

  lemma DeletedById(txs: seq<Tx>, id: nat)
    requires UniqueIds(txs) && UniqueIds(WithoutId(txs, id))
    ensures ById(WithoutId(txs, id)) == ById(txs) - {id}
  {
    var m := ById(txs) - {id};
    WithoutIdLeaves(txs, id);
    forall other | other in m ensures m[other] in WithoutId(txs, id) {
      var i :| 0 <= i < |txs| && txs[i].id == other;
      ByIdFinds(txs, i);
    }
    KeptById(txs, WithoutId(txs, id), m);
  }

  lemma PortfolioDeletedById(txs: seq<Tx>, p: nat)
    requires UniqueIds(txs) && UniqueIds(WithoutPortfolio(txs, p))
    ensures ById(WithoutPortfolio(txs, p)) == map id <- ById(txs) | ById(txs)[id].portfolio != p :: ById(txs)[id]
  {
    hide ById, UniqueIds, WithoutPortfolio;
    var all := ById(txs);
    var m := map id <- all | all[id].portfolio != p :: all[id];
    WithoutPortfolioLeaves(txs, p);
    forall id | id in all ensures all[id] in txs && all[id].id == id {
      IdIsOf(txs, id);
    }
    forall tx | tx in txs ensures tx.id in all && all[tx.id] == tx {
      TxIsById(txs, tx);
    }
    KeptById(txs, WithoutPortfolio(txs, p), m);
  }

  lemma RemapAsks(m: map<nat, Tx>, key: string, to: string, ids: set<nat>, now: int)
    requires key != to
    ensures var asked := Asked(m, Remap(key, to, ids, now, true));
      asked.Keys == m.Keys && forall id <- m :: asked[id] == Rebound(m[id], key, to, ids, now)
  {
  }

  lemma RemappedById(txs: seq<Tx>, key: string, to: string, ids: set<nat>, now: int)
    requires UniqueIds(txs) && key != to
    ensures ById(Remapped(txs, key, to, ids, now))
      == Asked(ById(txs), Remap(key, to, ids, now, true))
  {
    var after, m := Remapped(txs, key, to, ids, now), Asked(ById(txs), Remap(key, to, ids, now, true));
    RemapAsks(ById(txs), key, to, ids, now);
    assert UniqueIds(after) && forall i :: 0 <= i < |txs| ==> after[i].id == txs[i].id;
    hide ById, UniqueIds, Remapped, Asked, Rebound;
    forall i | 0 <= i < |after| ensures after[i].id in m && m[after[i].id] == after[i] {
      ByIdFinds(txs, i);
      assert txs[i].id in ById(txs);
    }
    forall id | id in m ensures exists i :: 0 <= i < |after| && after[i].id == id {
      assert id in ById(txs);
      var i :| 0 <= i < |txs| && txs[i].id == id;
      assert after[i].id == id;
    }
    SameById(after, m);
  }

  lemma NothingRemapped(txs: seq<Tx>, key: string, to: string, ids: set<nat>, now: int)
    requires UniqueIds(txs) && Affected(txs, key, ids) == []
    ensures Asked(ById(txs), Remap(key, to, ids, now, true)) == ById(txs)
  {
    NoneAffected(txs, key, ids);
    forall id | id in ById(txs) ensures !(ById(txs)[id].portfolio in ids && ById(txs)[id].key == key) {
      var i :| 0 <= i < |txs| && txs[i].id == id;
      ByIdFinds(txs, i);
    }
  }

  lemma {:induction false} MarksKeepTransactions(l: Ledger, txs: seq<Tx>)
    ensures InvalidatedAll(l, txs).transactions == l.transactions
  {
    if txs != [] {
      MarksKeepTransactions(l, txs[..|txs| - 1]);
    }
  }

  lemma AdditionById(txs: seq<Tx>, tx: Tx)
    requires UniqueIds(txs + [tx])
    ensures ById(txs + [tx]) == ById(txs)[tx.id := tx]
  {
    hide UniqueIds, ById;
    AppendedById(txs, [tx]);
    OneById(tx);
    assert ById(txs) + map[tx.id := tx] == ById(txs)[tx.id := tx];
  }

  lemma ReplacementById(l: Ledger, edit: Edit)
    requires edit.Update? || edit.Receive?
    requires Edited(l, edit).Some? && UniqueIds(l.transactions) && UniqueIds(Edited(l, edit).value.transactions)
    ensures ById(Edited(l, edit).value.transactions) == Asked(ById(l.transactions), edit)
  {
    hide UniqueIds, ById, PointsBefore, HasPortfolio;
    var tx := edit.tx;
    match PositionOf(l.transactions, tx.id) {
      case Some(i) =>
        assert Edited(l, edit).value.transactions == l.transactions[i := tx];
        ReplacedById(l.transactions, i, tx);
      case None =>
        assert Edited(l, edit).value.transactions == l.transactions + [tx];
        AdditionById(l.transactions, tx);
    }
  }

  lemma RemapById(l: Ledger, edit: Edit)
    requires edit.Remap? && Edited(l, edit).Some? && UniqueIds(l.transactions)
    ensures ById(Edited(l, edit).value.transactions) == Asked(ById(l.transactions), edit)
  {
    var Remap(key, to, ids, now, _) := edit;
    var affected := Affected(l.transactions, key, ids);
    if key != to && affected == [] {
      NothingRemapped(l.transactions, key, to, ids, now);
    } else if key != to {
      var remapped := l.(transactions := Remapped(l.transactions, key, to, ids, now));
      MarksKeepTransactions(remapped, affected);
      RemappedById(l.transactions, key, to, ids, now);
    }
    hide UniqueIds, ById, InvalidatedAll, Remapped;
  }

  /** An edit that is accepted does to the transactions exactly what it asks for, each told by its id. */
  lemma EditsDoWhatTheyAsk(l: Ledger, edit: Edit)
    requires Edited(l, edit).Some? && UniqueIds(l.transactions) && UniqueIds(Edited(l, edit).value.transactions)
    ensures ById(Edited(l, edit).value.transactions) == Asked(ById(l.transactions), edit)
  {
    hide UniqueIds, ById, PointsBefore, HasPortfolio, InvalidatedAll;
    var txs := l.transactions;
    match edit {
      case Describe(_, _) =>
      case Duplicate(_, _, copies, _) => AppendedById(txs, copies);
      case DeletePortfolio(p, _) => PortfolioDeletedById(txs, p);
      case Add(tx, _) => AdditionById(txs, tx);
      case Delete(id, _) => DeletedById(txs, id);
      case Import(imported, _) =>
        MarksKeepTransactions(l.(transactions := txs + imported), imported);
        AppendedById(txs, imported);
      case Remap(_, _, _, _, _) => RemapById(l, edit);
      case Update(_, _) => ReplacementById(l, edit);
      case Receive(_) => ReplacementById(l, edit);
    }
  }

  // MARK: What edits mark

  /** The portfolios whose value an edit can change, and from when. */
  function Dates(l: Ledger, edit: Edit): set<(nat, int)> {
    match edit
    case Duplicate(_, copy, copies, now) => {(copy.id, Earliest(copies, now))}
    case Add(tx, _) => {(tx.portfolio, tx.timestamp)}
    case Update(tx, _) =>
      (match PositionOf(l.transactions, tx.id)
       case None => {}
       case Some(i) =>
         var was := l.transactions[i];
         {(was.portfolio, Min(was.timestamp, tx.timestamp)), (tx.portfolio, tx.timestamp)})
    case Delete(id, _) =>
      (match PositionOf(l.transactions, id)
       case None => {}
       case Some(i) => {(l.transactions[i].portfolio, l.transactions[i].timestamp)})
    case Remap(key, to, ids, _, _) =>
      if key == to then {}
      else set tx <- l.transactions | tx.portfolio in ids && tx.key == key :: (tx.portfolio, tx.timestamp)
    case Import(txs, _) => DatesOf(txs)
    case Receive(tx) =>
      (match PositionOf(l.transactions, tx.id)
       case None => {(tx.portfolio, tx.timestamp)}
       case Some(i) =>
         var was := l.transactions[i];
         {(tx.portfolio, Min(was.timestamp, tx.timestamp)), (was.portfolio, was.timestamp)})
    case _ => {}
  }

  /** Exactly the points from those times on are gone, and the marks are the earliest of them and of what was marked. */
  ghost predicate MarksFrom(before: Ledger, after: Ledger, dates: set<(nat, int)>) {
    && (forall point :: point in after.history <==>
          point in before.history && forall date <- dates :: date.0 == point.portfolio ==> point.timestamp < date.1)
    && (forall p :: p in after.stale <==> p in before.stale || exists date <- dates :: date.0 == p)
    && (forall p <- after.stale ::
          && (p in before.stale ==> after.stale[p] <= before.stale[p])
          && (forall date <- dates :: date.0 == p ==> after.stale[p] <= date.1)
          && ((p in before.stale && after.stale[p] == before.stale[p]) || (p, after.stale[p]) in dates))
  }

  lemma OneMark(l: Ledger, p: nat, date: int)
    ensures MarksFrom(l, Invalidated(l, p, date), {(p, date)})
  {
    hide PointsBefore;
    var dates := {(p, date)};
    assert (p, date) in dates;
  }

  lemma MarksJoin(a: Ledger, b: Ledger, c: Ledger, first: set<(nat, int)>, second: set<(nat, int)>)
    requires MarksFrom(a, b, first) && MarksFrom(b, c, second)
    ensures MarksFrom(a, c, first + second)
  {
    forall p | p in c.stale ensures (p in a.stale && c.stale[p] == a.stale[p]) || (p, c.stale[p]) in first + second {
    }
  }

  function DatesOf(txs: seq<Tx>): set<(nat, int)> {
    set tx <- txs :: (tx.portfolio, tx.timestamp)
  }

  lemma OneMoreDate(txs: seq<Tx>, tx: Tx)
    ensures DatesOf(txs + [tx]) == DatesOf(txs) + {(tx.portfolio, tx.timestamp)}
  {
    assert forall t :: t in txs + [tx] <==> t in txs || t == tx;
  }

  lemma {:induction false} ManyMarks(l: Ledger, txs: seq<Tx>)
    ensures MarksFrom(l, InvalidatedAll(l, txs), DatesOf(txs))
  {
    hide Invalidated, MarksFrom, DatesOf;
    if txs == [] {
      NoMarks(l, l);
      assert DatesOf([]) == {} by {
        NoDates();
      }
    } else {
      var n := |txs| - 1;
      var front := InvalidatedAll(l, txs[..n]);
      ManyMarks(l, txs[..n]);
      OneMark(front, txs[n].portfolio, txs[n].timestamp);
      MarksJoin(l, front, InvalidatedAll(l, txs), DatesOf(txs[..n]), {(txs[n].portfolio, txs[n].timestamp)});
      assert txs == txs[..n] + [txs[n]];
      OneMoreDate(txs[..n], txs[n]);
    }
  }

  lemma NoDates()
    ensures DatesOf([]) == {}
  {
  }

  lemma NoMarks(l: Ledger, after: Ledger)
    requires after.history == l.history && after.stale == l.stale
    ensures MarksFrom(l, after, {})
  {
  }

  /** Marks do not depend on the rest of a ledger. */
  lemma MarksOf(a: Ledger, b: Ledger, after: Ledger, dates: set<(nat, int)>)
    requires MarksFrom(b, after, dates) && a.history == b.history && a.stale == b.stale
    ensures MarksFrom(a, after, dates)
  {
  }

  lemma ReplacementMarks(l: Ledger, edit: Edit)
    requires (edit.Update? || edit.Receive?) && Edited(l, edit).Some?
    ensures MarksFrom(l, Edited(l, edit).value, Dates(l, edit))
  {
    hide MarksFrom, Invalidated, HasPortfolio;
    var tx := edit.tx;
    match PositionOf(l.transactions, tx.id) {
      case None =>
        var added := l.(transactions := l.transactions + [tx]);
        OneMark(added, tx.portfolio, tx.timestamp);
        MarksOf(l, added, Invalidated(added, tx.portfolio, tx.timestamp), {(tx.portfolio, tx.timestamp)});
      case Some(i) =>
        var was, changed := l.transactions[i], l.(transactions := l.transactions[i := tx]);
        if edit.Update? {
          TwoMarks(l, changed, was.portfolio, Min(was.timestamp, tx.timestamp), tx.portfolio, tx.timestamp);
        } else {
          TwoMarks(l, changed, tx.portfolio, Min(was.timestamp, tx.timestamp), was.portfolio, was.timestamp);
        }
    }
  }

  lemma TwoMarks(l: Ledger, changed: Ledger, p: nat, first: int, q: nat, second: int)
    requires changed.history == l.history && changed.stale == l.stale && (p == q ==> first <= second)
    ensures var once := Invalidated(changed, p, first);
      MarksFrom(l, if p != q then Invalidated(once, q, second) else once, {(p, first), (q, second)})
  {
    var once := Invalidated(changed, p, first);
    var twice := Invalidated(once, q, second);
    OneMark(changed, p, first);
    hide Invalidated;
    if p == q {
      LaterMarksNothing(changed, once, p, first, second);
      MarksOf(l, changed, once, {(p, first), (p, second)});
    } else {
      OneMark(once, q, second);
      MarksJoin(changed, once, twice, {(p, first)}, {(q, second)});
      assert {(p, first)} + {(q, second)} == {(p, first), (q, second)};
      MarksOf(l, changed, twice, {(p, first), (q, second)});
    }
  }

  lemma LaterMarksNothing(l: Ledger, after: Ledger, p: nat, first: int, second: int)
    requires first <= second && MarksFrom(l, after, {(p, first)})
    ensures MarksFrom(l, after, {(p, first), (p, second)})
  {
    assert (p, first) in {(p, first)} && (p, second) in {(p, first), (p, second)};
  }

  lemma {:induction false} AffectedOnly(txs: seq<Tx>, key: string, ids: set<nat>)
    ensures forall tx <- Affected(txs, key, ids) :: tx in txs && tx.portfolio in ids && tx.key == key
  {
    if txs != [] {
      AffectedOnly(txs[1..], key, ids);
      assert txs == [txs[0]] + txs[1..];
    }
  }

  lemma AffectedDates(txs: seq<Tx>, key: string, ids: set<nat>)
    ensures DatesOf(Affected(txs, key, ids))
      == set tx <- txs | tx.portfolio in ids && tx.key == key :: (tx.portfolio, tx.timestamp)
  {
    AffectedAll(txs, key, ids);
    AffectedOnly(txs, key, ids);
    hide Affected;
    assert forall tx :: tx in Affected(txs, key, ids) <==> tx in txs && tx.portfolio in ids && tx.key == key;
  }

  lemma RemapMarks(l: Ledger, edit: Edit)
    requires edit.Remap? && Edited(l, edit).Some?
    ensures MarksFrom(l, Edited(l, edit).value, Dates(l, edit))
  {
    hide MarksFrom, InvalidatedAll, Remapped;
    var Remap(key, to, ids, now, _) := edit;
    var affected := Affected(l.transactions, key, ids);
    AffectedDates(l.transactions, key, ids);
    if key == to || affected == [] {
      NoMarks(l, l);
      assert Dates(l, edit) == {};
    } else {
      var remapped := l.(transactions := Remapped(l.transactions, key, to, ids, now));
      ManyMarks(remapped, affected);
      MarksOf(l, remapped, InvalidatedAll(remapped, affected), Dates(l, edit));
    }
  }

  /** Every other edit than deleting a portfolio drops and marks exactly what it can change, and no more. */
  lemma EditsMarkWhatTheyChange(l: Ledger, edit: Edit)
    requires Edited(l, edit).Some? && !edit.DeletePortfolio?
    ensures MarksFrom(l, Edited(l, edit).value, Dates(l, edit))
  {
    hide MarksFrom, Invalidated, InvalidatedAll, HasPortfolio;
    match edit {
      case Describe(_, _) => NoMarks(l, Edited(l, edit).value);
      case Duplicate(_, copy, copies, now) =>
        var copied := l.(portfolios := l.portfolios + [copy], transactions := l.transactions + copies,
          selected := Some(copy.id));
        OneMark(copied, copy.id, Earliest(copies, now));
        MarksOf(l, copied, Edited(l, edit).value, Dates(l, edit));
      case Add(tx, _) =>
        var added := l.(transactions := l.transactions + [tx]);
        OneMark(added, tx.portfolio, tx.timestamp);
        MarksOf(l, added, Edited(l, edit).value, Dates(l, edit));
      case Delete(id, _) =>
        var was, deleted := l.transactions[PositionOf(l.transactions, id).value],
          l.(transactions := WithoutId(l.transactions, id));
        OneMark(deleted, was.portfolio, was.timestamp);
        MarksOf(l, deleted, Edited(l, edit).value, Dates(l, edit));
      case Import(txs, _) =>
        var imported := l.(transactions := l.transactions + txs);
        ManyMarks(imported, txs);
        MarksOf(l, imported, Edited(l, edit).value, Dates(l, edit));
      case Remap(_, _, _, _, _) => RemapMarks(l, edit);
      case Update(_, _) => ReplacementMarks(l, edit);
      case Receive(_) => ReplacementMarks(l, edit);
    }
  }

  // MARK: Which edits are accepted

  /**
   * An edit is accepted exactly if the portfolios and the transaction it names are there and the
   * outcome can be replayed.
   */
  lemma EditsAreAcceptedExactly(l: Ledger, edit: Edit)
    ensures Edited(l, edit).Some? <==>
      match edit
      case Describe(_, _) => true
      case Duplicate(original, _, _, _) => exists p <- l.portfolios :: p.id == original
      case DeletePortfolio(gone, _) => exists p <- l.portfolios :: p.id == gone
      case Add(tx, valid) => valid && exists p <- l.portfolios :: p.id == tx.portfolio
      case Update(tx, valid) =>
        valid && (exists p <- l.portfolios :: p.id == tx.portfolio) && exists t <- l.transactions :: t.id == tx.id
      case Delete(id, valid) => valid && exists t <- l.transactions :: t.id == id
      case Remap(key, to, ids, _, valid) =>
        valid || key == to || forall t <- l.transactions :: !(t.portfolio in ids && t.key == key)
      case Import(txs, valid) => valid && forall tx <- txs :: exists p <- l.portfolios :: p.id == tx.portfolio
      case Receive(tx) => exists p <- l.portfolios :: p.id == tx.portfolio
  {
    if edit.Remap? {
      NoneAffected(l.transactions, edit.key, edit.ids);
    }
    hide Invalidated, InvalidatedAll, Remapped, WithoutPortfolio, WithoutId, PointsOfOthers, Affected;
    if edit.Update? || edit.Delete? {
      var id := if edit.Update? then edit.tx.id else edit.id;
      assert PositionOf(l.transactions, id).Some? ==>
        l.transactions[PositionOf(l.transactions, id).value] in l.transactions;
    }
  }

  lemma {:induction false} UnlistedLeaves(portfolios: seq<Portfolio>, id: nat)
    ensures forall p :: p in Unlisted(portfolios, id) <==> p in portfolios && p.id != id
  {
    if portfolios != [] {
      UnlistedLeaves(portfolios[1..], id);
      assert portfolios == [portfolios[0]] + portfolios[1..];
    }
  }

  lemma {:induction false} MarksKeepLists(l: Ledger, txs: seq<Tx>)
    ensures InvalidatedAll(l, txs).portfolios == l.portfolios && InvalidatedAll(l, txs).selected == l.selected
  {
    if txs != [] {
      MarksKeepLists(l, txs[..|txs| - 1]);
    }
  }

  /** The list of portfolios and the selection change only as an edit of them says. */
  lemma ListsChangeAsAsked(l: Ledger, edit: Edit)
    requires Edited(l, edit).Some?
    ensures var after := Edited(l, edit).value;
      match edit
      case Describe(portfolios, selected) => after.portfolios == portfolios && after.selected == selected
      case Duplicate(_, copy, _, _) => after.portfolios == l.portfolios + [copy] && after.selected == Some(copy.id)
      case DeletePortfolio(gone, selected) =>
        && after.selected == selected
        && forall p :: p in after.portfolios <==> p in l.portfolios && p.id != gone
      case _ => after.portfolios == l.portfolios && after.selected == l.selected
  {
    match edit {
      case DeletePortfolio(gone, _) => UnlistedLeaves(l.portfolios, gone);
      case Remap(key, to, ids, now, _) =>
        var remapped := l.(transactions := Remapped(l.transactions, key, to, ids, now));
        MarksKeepLists(remapped, Affected(l.transactions, key, ids));
      case Import(txs, _) => MarksKeepLists(l.(transactions := l.transactions + txs), txs);
      case _ =>
    }
    hide InvalidatedAll, Remapped, PointsBefore, Unlisted, HasPortfolio;
  }

  /** A deleted portfolio takes its points and its mark along, and no other's. */
  lemma DeletedPortfoliosLeaveNothing(l: Ledger, p: nat, selected: Option<nat>)
    requires Edited(l, DeletePortfolio(p, selected)).Some?
    ensures var after := Edited(l, DeletePortfolio(p, selected)).value;
      && (forall point :: point in after.history <==> point in l.history && point.portfolio != p)
      && (forall q :: q in after.stale <==> q in l.stale && q != p) && forall q <- after.stale ::
        after.stale[q] == l.stale[q]
  {
  }

  /** A copy is marked from its first transaction on. */
  lemma {:induction false} EarliestIsAttained(txs: seq<Tx>, otherwise: int)
    ensures if txs == [] then Earliest(txs, otherwise) == otherwise
            else exists tx <- txs :: Earliest(txs, otherwise) == tx.timestamp
  {
    if |txs| > 1 {
      EarliestIsAttained(txs[1..], otherwise);
      assert txs == [txs[0]] + txs[1..] && txs[0] in txs;
    } else if |txs| == 1 {
      assert txs[0] in txs;
    }
  }

  // MARK: Fingerprints

  /** What the fingerprint covers of a transaction. */
  function Covered(tx: Tx): Tx {
    tx.(notes := "")
  }

  /** Two versions look the same to the fingerprint exactly if they differ in nothing but what it leaves out. */
  lemma OnlyNotesAreLeftOut(a: Tx, b: Tx)
    ensures Covered(a) == Covered(b) <==> a.(notes := b.notes) == b
  {
  }

  /** The sum of the hashes, taken as collision-free: it tells what is covered apart, but not the order. */
  function Fingerprint(txs: seq<Tx>): multiset<Tx> {
    if txs == [] then multiset{} else multiset{Covered(txs[0])} + Fingerprint(txs[1..])
  }

  /** Two versions of a transaction that differ at all differ in something covered, such as the time of the edit. */
  predicate EditsShow(versions: set<Tx>) {
    forall a <- versions, b <- versions :: Covered(a) == Covered(b) ==> a == b
  }

  lemma {:induction false} FingerprintMembers(txs: seq<Tx>, view: Tx)
    ensures view in Fingerprint(txs) <==> exists i :: 0 <= i < |txs| && Covered(txs[i]) == view
  {
    if txs != [] {
      FingerprintMembers(txs[1..], view);
      assert txs == [txs[0]] + txs[1..];
      if view in Fingerprint(txs[1..]) {
        var i :| 0 <= i < |txs| - 1 && Covered(txs[1..][i]) == view;
        assert Covered(txs[i + 1]) == view;
      }
      if exists i :: 0 <= i < |txs| && Covered(txs[i]) == view {
        var i :| 0 <= i < |txs| && Covered(txs[i]) == view;
        assert i > 0 ==> Covered(txs[1..][i - 1]) == view;
      }
    }
  }

  function Removed(txs: seq<Tx>, i: nat): seq<Tx>
    requires i < |txs|
  {
    txs[..i] + txs[i + 1..]
  }

  lemma RemovedOnce(txs: seq<Tx>, i: nat)
    requires i < |txs|
    ensures multiset(txs) == multiset(Removed(txs, i)) + multiset{txs[i]}
  {
    assert txs == txs[..i] + [txs[i]] + txs[i + 1..];
  }

  lemma {:induction false} FingerprintRemoved(txs: seq<Tx>, i: nat)
    requires i < |txs|
    ensures Fingerprint(txs) == Fingerprint(Removed(txs, i)) + multiset{Covered(txs[i])}
  {
    hide Covered, Fingerprint;
    var first, rest := txs[0], txs[1..];
    assert txs == [first] + rest;
    FingerprintGrows(first, rest);
    if i == 0 {
      assert Removed(txs, 0) == rest;
    } else {
      assert Removed(txs, i) == [first] + Removed(rest, i - 1) && rest[i - 1] == txs[i];
      hide Removed;
      FingerprintRemoved(rest, i - 1);
      FingerprintGrows(first, Removed(rest, i - 1));
    }
  }

  lemma FingerprintGrows(tx: Tx, rest: seq<Tx>)
    ensures Fingerprint([tx] + rest) == multiset{Covered(tx)} + Fingerprint(rest)
  {
    assert ([tx] + rest)[1..] == rest;
  }

  predicate AllIn(txs: seq<Tx>, versions: set<Tx>) {
    forall tx <- txs :: tx in versions
  }

  /** Where one list has the first transaction of the other. */
  lemma SharedFirst(a: seq<Tx>, b: seq<Tx>, versions: set<Tx>) returns (i: nat)
    requires EditsShow(versions) && AllIn(a, versions) && AllIn(b, versions)
    requires a != [] && Fingerprint(a) == Fingerprint(b)
    ensures i < |b| && b[i] == a[0] && Fingerprint(a[1..]) == Fingerprint(Removed(b, i))
  {
    hide Covered, Removed;
    FingerprintMembers(b, Covered(a[0]));
    assert Fingerprint(a) == multiset{Covered(a[0])} + Fingerprint(a[1..]);
    i :| 0 <= i < |b| && Covered(b[i]) == Covered(a[0]);
    assert a[0] in a && b[i] in b;
    FingerprintRemoved(b, i);
    assert Fingerprint(a[1..]) == Fingerprint(a) - multiset{Covered(a[0])};
    assert Fingerprint(Removed(b, i)) == Fingerprint(b) - multiset{Covered(a[0])};
  }

  lemma OnlyNothingHasNoFingerprint(txs: seq<Tx>)
    ensures Fingerprint(txs) == multiset{} <==> txs == []
  {
    if txs != [] {
      assert Covered(txs[0]) in Fingerprint(txs);
    }
  }

  lemma RestIsIn(txs: seq<Tx>, i: nat, versions: set<Tx>)
    requires i < |txs| && AllIn(txs, versions)
    ensures AllIn(Removed(txs, i), versions)
  {
  }

  /** Equal fingerprints mean equal transactions, as long as edits show. */
  lemma {:induction false} FingerprintTells(a: seq<Tx>, b: seq<Tx>, versions: set<Tx>)
    requires EditsShow(versions) && AllIn(a, versions) && AllIn(b, versions) && Fingerprint(a) == Fingerprint(b)
    ensures multiset(a) == multiset(b)
    decreases |a|
  {
    hide Covered, EditsShow;
    if a == [] {
      OnlyNothingHasNoFingerprint(b);
    } else {
      var i := SharedFirst(a, b, versions);
      RestIsIn(a, 0, versions);
      RestIsIn(b, i, versions);
      assert Removed(a, 0) == a[1..];
      RemovedOnce(a, 0);
      RemovedOnce(b, i);
      FingerprintTells(a[1..], Removed(b, i), versions);
    }
  }

  lemma {:induction false} RelevantOfSame(a: seq<Tx>, b: seq<Tx>, p: nat, t: int)
    requires multiset(a) == multiset(b)
    ensures multiset(Relevant(a, p, t)) == multiset(Relevant(b, p, t))
  {
    forall tx ensures multiset(Relevant(a, p, t))[tx] == multiset(Relevant(b, p, t))[tx] {
      RelevantCount(a, p, t, tx);
      RelevantCount(b, p, t, tx);
    }
  }

  lemma {:induction false} RelevantCount(txs: seq<Tx>, p: nat, t: int, tx: Tx)
    ensures multiset(Relevant(txs, p, t))[tx] == if Matters(tx, p, t) then multiset(txs)[tx] else 0
  {
    if txs != [] {
      RelevantCount(txs[1..], p, t, tx);
      assert txs == [txs[0]] + txs[1..];
    }
  }

  lemma {:induction false} RelevantOfOwn(txs: seq<Tx>, p: nat, t: int)
    ensures Relevant(OwnOf(txs, p), p, t) == Relevant(txs, p, t)
  {
    if txs != [] {
      RelevantOfOwn(txs[1..], p, t);
      if txs[0].portfolio == p {
        assert OwnOf(txs, p)[1..] == OwnOf(txs[1..], p);
      }
    }
  }

  /** A ledger of one transaction. */
  lemma Alone(tx: Tx, p: nat, t: int, id: nat)
    ensures OwnOf([tx], p) == if tx.portfolio == p then [tx] else []
    ensures Relevant([tx], p, t) == if Matters(tx, p, t) then [tx] else []
    ensures PositionOf([tx], id) == (if tx.id == id then Some(0) else None)
      && WithoutId([tx], id) == (if tx.id == id then [] else [tx])
    ensures Fingerprint([tx]) == multiset{Covered(tx)}
  {
    hide Covered, Matters;
    assert [tx][1..] == [] && [tx] + [] == [tx];
    assert OwnOf([], p) == [] && Relevant([], p, t) == [] && PositionOf([], id) == None && WithoutId([], id) == [];
    assert Fingerprint([]) == multiset{};
  }

  /** A history of one point. */
  lemma AlonePoint(point: Point, p: nat, date: int)
    ensures PointsBefore([point], p, date) == if point.portfolio != p || point.timestamp < date then [point] else []
  {
    assert [point][..0] == [] && [] + [point] == [point] && PointsBefore([], p, date) == [];
  }
}
