/**
 The planner of broker-side stops (core/broker_stops.py).

 Quantities are integers in units of 1e-9 share, the precision the planner rounds to; prices
 are reals. Position and order fields are taken as already read (`_f` turns an unreadable
 field into 0).
 */
module BrokerStops {
  import opened Options
  import Idempotency

  const SHARE := 1_000_000_000
  const MIN_BROKER_QTY := 1_000_000
  const EPSILON := 1_000
  const PRICE_TOLERANCE := 0.005

  datatype Leg = Whole | Fraction

  datatype TimeInForce = Gtc | Day | Other

  datatype Position = Position(symbol: string, qty: int, available: Option<int>, avgEntry: real)

  /** An open stop order as the broker lists it; the id may be missing (""). */
  datatype Listed = Listed(id: string, symbol: string, qty: int, stopPrice: real, tif: TimeInForce, key: string)

  datatype StopOrder = StopOrder(symbol: string, qty: int, stopPrice: real, leg: Leg, decision: string, key: string) {
    function Tif(): TimeInForce { if leg.Whole? then Gtc else Day }
  }

  datatype Reason = NoEntryPrice | BelowMinimum | PriceNotPositive | NoLeg

  datatype Plan = Plan(toPlace: seq<StopOrder>, toCancel: seq<string>, unprotected: seq<(string, Reason)>)

  /** The keyword arguments; dates are ISO strings. */
  datatype Settings = Settings(stopLossPct: real, session: Option<string>, listedSession: Option<string>,
                               digest: string -> string)

  // ----- Quantities and prices -----

  function Abs(x: int): nat { if x < 0 then -x else x }

  function AbsReal(x: real): real { if x < 0.0 then -x else x }

  /** The nearest integer, a tie to the even one. */
  function RoundHalfEven(y: real): int {
    var h := y.Floor;
    var frac := y - h as real;
    if frac < 0.5 || (frac == 0.5 && h % 2 == 0) then h else h + 1
  }

  /** `round(x, 2)`. */
  function RoundCents(x: real): real {
    RoundHalfEven(x * 100.0) as real / 100.0
  }

  function Threshold(avgEntry: real, stopLossPct: real): real {
    avgEntry * (1.0 - AbsReal(stopLossPct) / 100.0)
  }

  function StopPrice(avgEntry: real, stopLossPct: real): real {
    RoundCents(Threshold(avgEntry, stopLossPct))
  }

  /** `^stop-\d+-stop-` on the order's key. */
  predicate IsOwnKey(key: string) {
    && "stop-" <= key
    && var j := Idempotency.Span(key[5..], Idempotency.IsDigit);
       j > 0 && "-stop-" <= key[5 + j..]
  }

  function OwnBound(symbol: string, stops: seq<Listed>): nat {
    if stops == [] then 0
    else (if stops[0].symbol == symbol && IsOwnKey(stops[0].key) then Abs(stops[0].qty) else 0)
         + OwnBound(symbol, stops[1..])
  }

  /** `_menge`: what is free plus what the own stops bind, never more than is held. */
  function ProtectedQty(pos: Position, stops: seq<Listed>): nat {
    var held := Abs(pos.qty);
    if pos.available.None? then held
    else
      var qty := Abs(pos.available.value) + OwnBound(pos.symbol, stops);
      if held > 0 && held < qty then held else qty
  }

  // ----- What is wanted -----

  function DecisionId(symbol: string, leg: Leg, session: Option<string>): string {
    match leg
    case Whole => "stop-" + symbol
    case Fraction => "stop-" + symbol + "-" + (if session.Some? then session.value else "day")
  }

  function Build(symbol: string, qty: int, price: real, leg: Leg, s: Settings): StopOrder {
    var decision := DecisionId(symbol, leg, s.session);
    StopOrder(symbol, qty, price, leg, decision, Idempotency.Key(s.digest, decision, "stop", 0))
  }

  function LegsFor(symbol: string, qty: nat, price: real, s: Settings): seq<StopOrder> {
    var whole := qty / SHARE * SHARE;
    var rest := qty - whole;
    (if whole >= SHARE then [Build(symbol, whole, price, Whole, s)] else [])
    + (if rest >= MIN_BROKER_QTY then [Build(symbol, rest, price, Fraction, s)] else [])
  }

  datatype PositionPlan = Skipped | Unprotected(symbol: string, reason: Reason) | Wanted(symbol: string, legs: seq<StopOrder>)

  /** The plan of a position, given the quantity to protect. */
  function PlanQuantity(symbol: string, qty: nat, avgEntry: real, s: Settings): PositionPlan {
    if avgEntry <= 0.0 then Unprotected(symbol, NoEntryPrice)
    else if qty < MIN_BROKER_QTY then Unprotected(symbol, BelowMinimum)
    else
      var price := StopPrice(avgEntry, s.stopLossPct);
      if price <= 0.0 then Unprotected(symbol, PriceNotPositive)
      else
        var legs := LegsFor(symbol, qty, price, s);
        if legs == [] then Unprotected(symbol, NoLeg) else Wanted(symbol, legs)
  }

  function PlanPosition(pos: Position, stops: seq<Listed>, s: Settings): PositionPlan {
    if pos.symbol == "" then Skipped
    else PlanQuantity(pos.symbol, ProtectedQty(pos, stops), pos.avgEntry, s)
  }

  function Plans(positions: seq<Position>, stops: seq<Listed>, s: Settings): (plans: seq<PositionPlan>)
    ensures |plans| == |positions|
    ensures forall i | 0 <= i < |plans| :: plans[i] == PlanPosition(positions[i], stops, s)
  {
    seq(|positions|, i requires 0 <= i < |positions| => PlanPosition(positions[i], stops, s))
  }

  function Legs(plan: PositionPlan): seq<StopOrder> {
    if plan.Wanted? then plan.legs else []
  }

  function Reasons(plan: PositionPlan): seq<(string, Reason)> {
    if plan.Unprotected? then [(plan.symbol, plan.reason)] else []
  }

  function Held(plan: PositionPlan): set<string> {
    if plan.Skipped? then {} else {plan.symbol}
  }

  function AllWanted(plans: seq<PositionPlan>): seq<StopOrder> {
    var n := |plans|;
    if n == 0 then [] else AllWanted(plans[..n - 1]) + Legs(plans[n - 1])
  }

  function AllUnprotected(plans: seq<PositionPlan>): seq<(string, Reason)> {
    var n := |plans|;
    if n == 0 then [] else AllUnprotected(plans[..n - 1]) + Reasons(plans[n - 1])
  }

  function HeldSymbols(plans: seq<PositionPlan>): set<string> {
    var n := |plans|;
    if n == 0 then {} else HeldSymbols(plans[..n - 1]) + Held(plans[n - 1])
  }

  // ----- What is there -----

  predicate Matches(v: Listed, stop: StopOrder) {
    && v.symbol == stop.symbol
    && v.tif == stop.Tif()
    && Abs(v.qty - stop.qty) <= EPSILON
    && AbsReal(v.stopPrice - stop.stopPrice) <= PRICE_TOLERANCE
  }

  predicate Covered(stop: StopOrder, stops: seq<Listed>) {
    exists v | v in stops :: Matches(v, stop)
  }

  predicate NewSession(s: Settings) {
    s.listedSession.Some? && s.session.Some? && s.listedSession != s.session
  }

  function WithoutDay(stops: seq<Listed>): seq<Listed> {
    if stops == [] then []
    else (if stops[0].tif.Day? then [] else [stops[0]]) + WithoutDay(stops[1..])
  }

  /** Day stops of an earlier session do not count as cover. */
  function Counting(stops: seq<Listed>, s: Settings): seq<Listed> {
    if NewSession(s) then WithoutDay(stops) else stops
  }

  function Missing(wanted: seq<StopOrder>, stops: seq<Listed>): seq<StopOrder> {
    if wanted == [] then []
    else (if Covered(wanted[0], stops) then [] else [wanted[0]]) + Missing(wanted[1..], stops)
  }

  predicate IsObsolete(v: Listed, held: set<string>, wanted: seq<StopOrder>) {
    && v.id != ""
    && (v.symbol in held ==>
          && (exists w | w in wanted :: w.symbol == v.symbol)
          && !(exists w | w in wanted && w.symbol == v.symbol :: Matches(v, w)))
  }

  function Obsolete(stops: seq<Listed>, held: set<string>, wanted: seq<StopOrder>): seq<string> {
    if stops == [] then []
    else (if IsObsolete(stops[0], held, wanted) then [stops[0].id] else []) + Obsolete(stops[1..], held, wanted)
  }

  function PlanFor(positions: seq<Position>, stops: seq<Listed>, s: Settings): Plan {
    var plans := Plans(positions, stops, s);
    var wanted := AllWanted(plans);
    Plan(Missing(wanted, Counting(stops, s)), Obsolete(stops, HeldSymbols(plans), wanted), AllUnprotected(plans))
  }

  lemma RoundingIsNear(x: real)
    ensures AbsReal(RoundCents(x) - x) <= PRICE_TOLERANCE
    ensures RoundCents(x) * 100.0 == (RoundCents(x) * 100.0).Floor as real
  {
    RoundingIsWithinHalf(x * 100.0);
    WholeNumbersAreTheirFloor(RoundHalfEven(x * 100.0));
  }

  lemma RoundingIsWithinHalf(y: real)
    ensures y - 0.5 <= RoundHalfEven(y) as real <= y + 0.5
  {
  }

  lemma WholeNumbersAreTheirFloor(n: int)
    ensures n as real / 100.0 * 100.0 == n as real && (n as real).Floor == n
  {
  }

  lemma ThresholdExactly(avgEntry: real, stopLossPct: real)
    ensures stopLossPct >= 0.0 ==> Threshold(avgEntry, stopLossPct) == avgEntry * (1.0 - stopLossPct / 100.0)
    ensures stopLossPct < 0.0 ==> Threshold(avgEntry, stopLossPct) == avgEntry * (1.0 + stopLossPct / 100.0)
  {
    var factor := 1.0 - AbsReal(stopLossPct) / 100.0;
    assert Threshold(avgEntry, stopLossPct) == avgEntry * factor;
    if stopLossPct >= 0.0 {
      assert factor == 1.0 - stopLossPct / 100.0;
    } else {
      assert factor == 1.0 + stopLossPct / 100.0;
    }
  }

  /** The stop price is a whole number of cents within half a cent of the threshold. */
  lemma StopPriceIsNearThreshold(avgEntry: real, stopLossPct: real)
    ensures var price, threshold := StopPrice(avgEntry, stopLossPct), Threshold(avgEntry, stopLossPct);
            && threshold - 0.005 <= price <= threshold + 0.005
            && price * 100.0 == (price * 100.0).Floor as real
            && (stopLossPct >= 0.0 ==> threshold == avgEntry * (1.0 - stopLossPct / 100.0))
            && (stopLossPct < 0.0 ==> threshold == avgEntry * (1.0 + stopLossPct / 100.0))
  {
    RoundingIsNear(Threshold(avgEntry, stopLossPct));
    ThresholdExactly(avgEntry, stopLossPct);
  }

  // ----- The planner -----

  /** `plan_broker_stops`: the loop over the positions, then the loop over the listed stops. */
  method PlanBrokerStops(positions: seq<Position>, stops: seq<Listed>, s: Settings) returns (plan: Plan)
    ensures plan == PlanFor(positions, stops, s)
  {
    var counting := stops;
    if NewSession(s) {
      counting := WithoutDay(stops);
    }
    var toPlace, wanted, unprotected, needed := CollectWanted(Plans(positions, stops, s), counting);
    var toCancel := CancelObsolete(stops, needed, wanted);
    plan := Plan(toPlace, toCancel, unprotected);
  }

  method CollectWanted(plans: seq<PositionPlan>, counting: seq<Listed>)
    returns (toPlace: seq<StopOrder>, wanted: seq<StopOrder>, unprotected: seq<(string, Reason)>, needed: set<string>)
    ensures wanted == AllWanted(plans) && toPlace == Missing(wanted, counting)
    ensures unprotected == AllUnprotected(plans) && needed == HeldSymbols(plans)
  {
    toPlace, wanted, unprotected, needed := [], [], [], {};
    for i := 0 to |plans|
      invariant needed == HeldSymbols(plans[..i])
      invariant wanted == AllWanted(plans[..i])
      invariant unprotected == AllUnprotected(plans[..i])
      invariant toPlace == Missing(wanted, counting)
    {
      var planned := plans[i];
      assert plans[..i + 1][..i] == plans[..i];
      needed, unprotected := needed + Held(planned), unprotected + Reasons(planned);
      if planned.Wanted? {
        MissingConcat(wanted, planned.legs, counting);
        var more := PlaceMissing(planned.legs, counting);
        toPlace, wanted := toPlace + more, wanted + planned.legs;
      }
    }
    assert plans[..|plans|] == plans;
  }

  method CancelObsolete(stops: seq<Listed>, needed: set<string>, wanted: seq<StopOrder>) returns (toCancel: seq<string>)
    ensures toCancel == Obsolete(stops, needed, wanted)
  {
    toCancel := [];
    for i := 0 to |stops|
      invariant toCancel + Obsolete(stops[i..], needed, wanted) == Obsolete(stops, needed, wanted)
    {
      assert stops[i..][1..] == stops[i + 1..];
      if IsObsolete(stops[i], needed, wanted) {
        toCancel := toCancel + [stops[i].id];
      }
    }
  }

  method PlaceMissing(legs: seq<StopOrder>, counting: seq<Listed>) returns (toPlace: seq<StopOrder>)
    ensures toPlace == Missing(legs, counting)
  {
    toPlace := [];
    for i := 0 to |legs|
      invariant toPlace == Missing(legs[..i], counting)
    {
      assert legs[..i + 1] == legs[..i] + [legs[i]];
      MissingAppend(legs[..i], legs[i], counting);
      if !Covered(legs[i], counting) {
        toPlace := toPlace + [legs[i]];
      }
    }
    assert legs[..|legs|] == legs;
  }

  lemma MissingAppend(legs: seq<StopOrder>, w: StopOrder, stops: seq<Listed>)
    ensures Missing(legs + [w], stops) == if Covered(w, stops) then Missing(legs, stops) else Missing(legs, stops) + [w]
  {
    MissingConcat(legs, [w], stops);
    assert [w][1..] == [];
  }

  lemma {:induction false} MissingConcat(a: seq<StopOrder>, b: seq<StopOrder>, stops: seq<Listed>)
    ensures Missing(a + b, stops) == Missing(a, stops) + Missing(b, stops)
  {
    if a == [] {
      assert a + b == b;
    } else {
      assert (a + b)[1..] == a[1..] + b;
      MissingConcat(a[1..], b, stops);
    }
  }
}
