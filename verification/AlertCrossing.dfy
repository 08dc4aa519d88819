// Judging quotes: when a price alert fires. See src/model/alert_engine.rs and src/model/alert.rs.
module AlertCrossing {
  import opened Text
  import opened AlertEngine

  /** A quote converted into one currency is only for alerts in it; any other is for all. */
  datatype Quote = Quote(asset: string, price: real, currency: Option<Currency>, fingerprint: string, isFresh: bool)

  function Code(currency: Currency): string {
    match currency
    case Usd => "USD" case Eur => "EUR" case Gbp => "GBP" case Jpy => "JPY" case Chf => "CHF"
  }

  function FingerprintOf(quote: Quote, currency: Currency): string {
    quote.fingerprint + ":" + Code(currency)
  }

  predicate Crossed(condition: Condition, target: real, previous: real, current: real) {
    if condition.CrossesUp() then previous < target && current >= target else previous > target && current <= target
  }

  predicate Opposite(condition: Condition, target: real, current: real) {
    if condition.CrossesUp() then current < target else current > target
  }

  /** Whether a quote is compared with an alert at all. */
  predicate Considers(alert: PriceAlert, quote: Quote) {
    && quote.isFresh && alert.state == Active && alert.asset == quote.asset
    && (quote.currency.Some? ==> alert.currency == quote.currency.value)
    && alert.fingerprint != Some(FingerprintOf(quote, alert.currency)) && alert.condition.Target().Some?
  }

  /** The latch as it stands when a price is compared, after the price has had its chance to re-arm it. */
  predicate ArmedFor(alert: PriceAlert, price: real)
    requires alert.condition.Target().Some?
  {
    alert.armed || Opposite(alert.condition, alert.condition.Target().value, price)
  }

  predicate Fires(alert: PriceAlert, quote: Quote) {
    && Considers(alert, quote) && alert.previous.Some? && ArmedFor(alert, quote.price)
    && Crossed(alert.condition, alert.condition.Target().value, alert.previous.value, quote.price)
  }

  function Judged(alert: PriceAlert, quote: Quote): PriceAlert {
    if !Considers(alert, quote) then alert
    else
      var latched :=
        if alert.previous.None? then alert.(armed := alert.condition.ArmedAt(quote.price) == Some(true))
        else if Fires(alert, quote)
          then alert.(armed := false, state := if alert.frequency == Once then Triggered else alert.state)
        else alert.(armed := ArmedFor(alert, quote.price));
      latched.(previous := Some(quote.price), fingerprint := Some(FingerprintOf(quote, alert.currency)))
  }

  /** One quote against every alert, in place; the ids of those that fired. */
  class Alerts {
    var alerts: seq<PriceAlert>
    var muted: set<nat>

    constructor (alerts: seq<PriceAlert>, muted: set<nat>)
      ensures this.alerts == alerts && this.muted == muted
    {
      this.alerts, this.muted := alerts, muted;
    }

    static method Judge(current: PriceAlert, quote: Quote) returns (alert: PriceAlert, fires: bool)
      requires Considers(current, quote)
      ensures alert == Judged(current, quote) && fires == Fires(current, quote)
    {
      alert, fires := current, false;
      var target := alert.condition.Target().value;
      match alert.previous {
        case Some(previous) =>
          if !alert.armed && Opposite(alert.condition, target, quote.price) {
            alert := alert.(armed := true);
          }
          if alert.armed && Crossed(alert.condition, target, previous, quote.price) {
            fires := true;
            if alert.frequency == Once {
              alert := alert.(state := Triggered);
            }
            alert := alert.(armed := false);
          }
        case None =>
          alert := alert.(armed := alert.condition.ArmedAt(quote.price) == Some(true));
      }
      alert := alert.(previous := Some(quote.price), fingerprint := Some(FingerprintOf(quote, alert.currency)));
    }

    method Process(quote: Quote) returns (fired: seq<nat>)
      modifies this`alerts
      ensures |alerts| == |old(alerts)|
      ensures forall i :: 0 <= i < |alerts| ==>
        alerts[i] == if old(alerts)[i].id in muted then old(alerts)[i] else Judged(old(alerts)[i], quote)
      ensures fired == FiredIds(old(alerts), quote, muted)
    {
      hide Judged, Fires;
      fired := [];
      if !quote.isFresh {
        NothingFires(alerts, quote, muted);
        return;
      }
      ghost var before := alerts;
      for i := 0 to |alerts|
        invariant |alerts| == |before|
        invariant forall j :: 0 <= j < i ==>
          alerts[j] == if before[j].id in muted then before[j] else Judged(before[j], quote)
        invariant forall j :: i <= j < |alerts| ==> alerts[j] == before[j]
        invariant fired == FiredIds(before[..i], quote, muted)
      {
        var alert := alerts[i];
        assert before[..i + 1][..i] == before[..i];
        if alert.id in muted {
          continue;
        }
        if alert.state != Active || alert.asset != quote.asset
           || (quote.currency.Some? && alert.currency != quote.currency.value)
           || alert.fingerprint == Some(FingerprintOf(quote, alert.currency)) || alert.condition.Target().None? {
          Unconsidered(alert, quote);
          continue;
        }
        var judged, fires := Judge(alert, quote);
        if fires {
          fired := fired + [alert.id];
        }
        alerts := alerts[i := judged];
      }
      assert before[..|before|] == before;
    }
  }

  function FiredIds(alerts: seq<PriceAlert>, quote: Quote, muted: set<nat>): seq<nat> {
    if alerts == [] then []
    else
      var n := |alerts| - 1;
      FiredIds(alerts[..n], quote, muted)
        + if alerts[n].id !in muted && Fires(alerts[n], quote) then [alerts[n].id] else []
  }

  /** Whatever is listed as fired fired and was not muted, and whatever did is listed. */
  lemma {:induction false} FiredAreListed(alerts: seq<PriceAlert>, quote: Quote, muted: set<nat>, id: nat)
    ensures id in FiredIds(alerts, quote, muted) <==>
      exists a <- alerts :: a.id == id && id !in muted && Fires(a, quote)
    ensures |FiredIds(alerts, quote, muted)| <= |alerts|
  {
    hide Fires;
    if alerts != [] {
      var n := |alerts| - 1;
      FiredAreListed(alerts[..n], quote, muted, id);
      assert alerts == alerts[..n] + [alerts[n]] && alerts[n] in alerts;
      assert forall a <- alerts[..n] :: a in alerts;
    }
  }

  lemma Unconsidered(alert: PriceAlert, quote: Quote)
    requires !Considers(alert, quote)
    ensures !Fires(alert, quote) && Judged(alert, quote) == alert
  {
  }

  lemma {:induction false} NothingFires(alerts: seq<PriceAlert>, quote: Quote, muted: set<nat>)
    requires !quote.isFresh
    ensures FiredIds(alerts, quote, muted) == [] && forall i :: 0 <= i < |alerts| ==>
      Judged(alerts[i], quote) == alerts[i]
  {
    if alerts != [] {
      NothingFires(alerts[..|alerts| - 1], quote, muted);
    }
  }

  /** Judging only ever moves what the runtime keeps, as the engine's runs take for granted. */
  lemma JudgingKeepsDefinitions(before: seq<PriceAlert>, after: seq<PriceAlert>, quote: Quote, muted: set<nat>)
    requires |before| == |after|
    requires forall i :: 0 <= i < |before| ==>
      after[i] == if before[i].id in muted then before[i] else Judged(before[i], quote)
    ensures OnlyJudged(before, after)
  {
  }

  // MARK: The latch

  /** The price is still where the alert waits: below a level to be reached, or above one to fall to. */
  predicate Waits(condition: Condition, price: real) {
    match condition
    case CrossesAbove(level) => price < level
    case RisesBy(_, _, derived) => price < derived
    case CrossesBelow(level) => level < price
    case FallsBy(_, _, derived) => derived < price
    case UnsupportedCondition(_) => false
  }

  /** From one price to the next, the alert's level is reached from below or fallen to from above. */
  predicate Happens(condition: Condition, before: real, now: real) {
    match condition
    case CrossesAbove(level) => before < level <= now
    case RisesBy(_, _, derived) => before < derived <= now
    case CrossesBelow(level) => now <= level < before
    case FallsBy(_, _, derived) => now <= derived < before
    case UnsupportedCondition(_) => false
  }

  /** The latch says which side of its target an alert last saw: armed on the side it crosses from. */
  predicate Latched(alert: PriceAlert) {
    alert.previous.Some? && !alert.condition.UnsupportedCondition? ==>
      alert.armed == Waits(alert.condition, alert.previous.value)
  }

  /** Saving, pausing, resuming and judging all keep the latch. */
  lemma LatchIsKept(alert: PriceAlert, baseline: Option<real>, state: AlertState, quote: Quote, nowMs: int)
    ensures Latched(Saved(alert, baseline, nowMs))
    ensures Latched(alert) ==> Latched(WithState(alert, state, baseline, nowMs)) && Latched(Judged(alert, quote))
  {
  }

  lemma {:induction false} PutKeepsLatches(alerts: seq<PriceAlert>, alert: PriceAlert)
    requires Latched(alert) && forall a <- alerts :: Latched(a)
    ensures forall a <- Put(alerts, alert) :: Latched(a)
  {
    if alerts != [] && alerts[0].id != alert.id {
      PutKeepsLatches(alerts[1..], alert);
    }
  }

  /** Each alert is as it was, or as one of the quotes left it. */
  ghost predicate JudgesByQuote(s: Snapshot, op: Op) {
    op.Evaluate? ==> (
      && |op.judged| == |s.alerts|
      && forall i :: 0 <= i < |s.alerts| ==>
        op.judged[i] == s.alerts[i] || exists quote :: op.judged[i] == Judged(s.alerts[i], quote))
  }

  /** In every reachable snapshot each alert's latch says where its price was last seen. */
  lemma {:induction false} EveryLatchIsTrue(ops: seq<Op>)
    requires forall i :: 0 <= i < |ops| ==> JudgesByQuote(Replay(EMPTY, ops[..i]), ops[i])
    ensures forall a <- Replay(EMPTY, ops).alerts :: Latched(a)
  {
    if ops != [] {
      var n := |ops| - 1;
      forall i | 0 <= i < n ensures JudgesByQuote(Replay(EMPTY, ops[..n][..i]), ops[..n][i]) {
        assert ops[..n][..i] == ops[..i];
      }
      EveryLatchIsTrue(ops[..n]);
      StepKeepsLatches(Replay(EMPTY, ops[..n]), ops[n]);
    }
  }

  lemma StepKeepsLatches(s: Snapshot, op: Op)
    requires JudgesByQuote(s, op) && forall a <- s.alerts :: Latched(a)
    ensures forall a <- Step(s, op).alerts :: Latched(a)
  {
    hide Latched, Saved, WithState, Judged;
    match op {
      case Request(command, nowMs) =>
        if command.id !in s.processed && BrokenPrecondition(s.alerts, command).None? {
          hide BrokenPrecondition;
          match command.payload {
            case Save(alert, baseline) =>
              LatchIsKept(alert, baseline, Active, Quote("", 0.0, None, "", false), nowMs);
              PutKeepsLatches(s.alerts, Saved(alert, baseline, nowMs));
            case SetState(id, state, baseline) =>
              if Find(s.alerts, id).Some? {
                var alert := Find(s.alerts, id).value;
                LatchIsKept(alert, baseline, state, Quote("", 0.0, None, "", false), nowMs);
                PutKeepsLatches(s.alerts, WithState(alert, state, baseline, nowMs));
              }
            case Delete(id) => WithoutRemoves(s.alerts, id);
            case ClearHistory =>
            case RequestAuthorization =>
          }
        }
      case Evaluate(_, judged) =>
        forall a | a in judged ensures Latched(a) {
          var i :| 0 <= i < |judged| && judged[i] == a;
          if a != s.alerts[i] {
            var quote :| a == Judged(s.alerts[i], quote);
            LatchIsKept(s.alerts[i], None, Active, quote, 0);
          }
        }
      case Beat(_) =>
    }
  }

  // MARK: When an alert fires

  /** An active alert of the quote's market and currency, and the first it hears of this observation. */
  predicate Concerns(quote: Quote, alert: PriceAlert) {
    && quote.isFresh && alert.state == Active && alert.asset == quote.asset
    && (quote.currency == None || quote.currency == Some(alert.currency))
    && alert.fingerprint != Some(quote.fingerprint + ":" + Code(alert.currency))
  }

  /**
   * In every reachable snapshot an alert fires at a quote if and only if the quote concerns it and
   * the price has gone from one side of its level to the other since the last one: up to it for
   * an alert that rises or crosses above, down to it for one that falls or crosses below. What a
   * quote does not concern it leaves as it is.
   */
  lemma ReachableAlertsFireAtCrossings(ops: seq<Op>, alert: PriceAlert, quote: Quote)
    requires forall i :: 0 <= i < |ops| ==> JudgesByQuote(Replay(EMPTY, ops[..i]), ops[i])
    requires alert in Replay(EMPTY, ops).alerts
    ensures Fires(alert, quote) <==>
      Concerns(quote, alert) && alert.previous.Some? && Happens(alert.condition, alert.previous.value, quote.price)
    ensures !Concerns(quote, alert) ==> Judged(alert, quote) == alert
  {
    EveryLatchIsTrue(ops);
    hide Replay;
    assert Latched(alert);
    if Considers(alert, quote) {
      OneQuote(alert, quote);
    }
  }

  /** An alert judged against one quote after another, and which of them fired. */
  function JudgedBy(alert: PriceAlert, quotes: seq<Quote>): PriceAlert {
    if quotes == [] then alert else Judged(JudgedBy(alert, quotes[..|quotes| - 1]), quotes[|quotes| - 1])
  }

  /** Quotes of the alert's own market and currency, no two in a row the same observation. */
  predicate Stream(alert: PriceAlert, quotes: seq<Quote>) {
    && !alert.condition.UnsupportedCondition?
    && (forall i :: 0 <= i < |quotes| ==> 
        quotes[i].isFresh && quotes[i].asset == alert.asset
          && (quotes[i].currency.Some? ==> quotes[i].currency.value == alert.currency))
    && (quotes != [] ==> alert.fingerprint != Some(FingerprintOf(quotes[0], alert.currency)))
    && (forall i :: 0 < i < |quotes| ==>
      FingerprintOf(quotes[i - 1], alert.currency) != FingerprintOf(quotes[i], alert.currency))
  }

  /** The price crosses the target between a quote and the one before it. */
  predicate CrossesAt(alert: PriceAlert, quotes: seq<Quote>, i: nat)
    requires i < |quotes|
  {
    && (i > 0 || alert.previous.Some?)
    && Happens(alert.condition, if i == 0 then alert.previous.value else quotes[i - 1].price, quotes[i].price)
  }

  predicate CrossesBefore(alert: PriceAlert, quotes: seq<Quote>, n: nat)
    requires n <= |quotes|
  {
    exists j :: 0 <= j < n && CrossesAt(alert, quotes, j)
  }

  /** What one more quote of the stream does to an alert that is still active. */
  lemma OneQuote(alert: PriceAlert, quote: Quote)
    requires Latched(alert) && Considers(alert, quote)
    ensures var after, fires := Judged(alert, quote), Fires(alert, quote);
      && Latched(after) && SameDefinition(after.(state := alert.state), alert)
      && (fires <==> alert.previous.Some? && Happens(alert.condition, alert.previous.value, quote.price))
      && after.state == (if fires && alert.frequency == Once then Triggered else Active)
      && after.previous == Some(quote.price) && after.fingerprint == Some(FingerprintOf(quote, alert.currency))
  {
  }

  /**
   * A one-time alert is spent by the first crossing; any other outcome leaves the alert watching from
   * the last price.
   */
  lemma {:induction false} SpentByTheFirstCrossing(alert: PriceAlert, quotes: seq<Quote>)
    requires alert.state == Active && Latched(alert) && Stream(alert, quotes)
    ensures var after := JudgedBy(alert, quotes);
      && Latched(after) && SameDefinition(after.(state := Active), alert)
      && after.state == (if alert.frequency == Once && CrossesBefore(alert, quotes, |quotes|) then Triggered
        else Active)
      && (after.state == Active ==> Considered(alert, quotes, after))
  {
    hide Judged, Fires, Latched, FingerprintOf, Happens;
    if quotes != [] {
      var n := |quotes| - 1;
      SpentByTheFirstCrossing(alert, quotes[..n]);
      CrossingsOfAFront(alert, quotes, n);
      var before := JudgedBy(alert, quotes[..n]);
      if before.state == Active {
        OneQuote(before, quotes[n]);
      } else {
        Unconsidered(before, quotes[n]);
      }
    }
  }

  /** The price and the observation an active alert remembers. */
  predicate Considered(alert: PriceAlert, quotes: seq<Quote>, after: PriceAlert) {
    if quotes == [] then after.previous == alert.previous && after.fingerprint == alert.fingerprint
    else
      && after.previous == Some(quotes[|quotes| - 1].price)
      && after.fingerprint == Some(FingerprintOf(quotes[|quotes| - 1], alert.currency))
  }

  /**
   * A repeating alert fires at a quote exactly when the price crossed its target since the quote
   * before; a one-time alert fires at the first such crossing and then never again.
   */
  lemma FiresExactlyAtCrossings(alert: PriceAlert, quotes: seq<Quote>, i: nat)
    requires alert.state == Active && Latched(alert) && Stream(alert, quotes) && i < |quotes|
    ensures Fires(JudgedBy(alert, quotes[..i]), quotes[i]) <==>
      CrossesAt(alert, quotes, i) && (alert.frequency == Once ==> !CrossesBefore(alert, quotes, i))
  {
    hide Judged, Fires, Latched, FingerprintOf, Happens;
    var before := JudgedBy(alert, quotes[..i]);
    SpentByTheFirstCrossing(alert, quotes[..i]);
    CrossingsOfAFront(alert, quotes, i);
    if before.state == Active {
      OneQuote(before, quotes[i]);
    } else {
      Unconsidered(before, quotes[i]);
    }
  }

  lemma CrossingsOfAFront(alert: PriceAlert, quotes: seq<Quote>, n: nat)
    requires n < |quotes|
    ensures CrossesBefore(alert, quotes, n) == CrossesBefore(alert, quotes[..n], n)
    ensures CrossesBefore(alert, quotes, n + 1) == (CrossesBefore(alert, quotes, n) || CrossesAt(alert, quotes, n))
  {
    hide Happens;
    assert forall i :: 0 <= i < n ==> CrossesAt(alert, quotes, i) == CrossesAt(alert, quotes[..n], i);
  }
}
