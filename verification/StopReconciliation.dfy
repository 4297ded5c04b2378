/**
 What planning and applying broker stops achieves: the plan of core/broker_stops.py together
 with the broker that binds shares to open orders and carries a plan out
 (core/engine/broker_stop_pflege.py:274-318).
 */
module StopReconciliation {
  import opened Options
  import opened BrokerStops
  import Idempotency

  // ----- The broker -----

  /** A held position; `foreign` are shares bound by orders that are not listed stops. */
  datatype Holding = Holding(symbol: string, qty: nat, foreign: nat, avgEntry: real)

  /** The shares that listed stops bind. */
  function Bound(symbol: string, stops: seq<Listed>): nat {
    if stops == [] then 0
    else (if stops[0].symbol == symbol then Abs(stops[0].qty) else 0) + Bound(symbol, stops[1..])
  }

  /** What the broker reports: everything bound is not available. */
  function Report(h: Holding, stops: seq<Listed>): Position {
    Position(h.symbol, h.qty, Some(h.qty - h.foreign - Bound(h.symbol, stops)), h.avgEntry)
  }

  function Reports(holdings: seq<Holding>, stops: seq<Listed>): (r: seq<Position>)
    ensures |r| == |holdings| && forall i | 0 <= i < |r| :: r[i] == Report(holdings[i], stops)
  {
    seq(|holdings|, i requires 0 <= i < |holdings| => Report(holdings[i], stops))
  }

  /** The broker never binds more shares than are held. */
  ghost predicate Binds(holdings: seq<Holding>, stops: seq<Listed>) {
    forall h | h in holdings :: h.foreign + Bound(h.symbol, stops) <= h.qty
  }

  ghost predicate DistinctHoldings(holdings: seq<Holding>) {
    && (forall h | h in holdings :: h.symbol != "")
    && forall i, j | 0 <= i < j < |holdings| :: holdings[i].symbol != holdings[j].symbol
  }

  ghost predicate DistinctIds(stops: seq<Listed>) {
    && (forall v | v in stops :: v.id != "")
    && forall i, j | 0 <= i < j < |stops| :: stops[i].id != stops[j].id
  }

  ghost predicate AllOwn(stops: seq<Listed>) {
    forall v | v in stops :: IsOwnKey(v.key)
  }

  /** A stop is placed under some order id, on the first attempt whose key is free. */
  datatype Placement = Placement(id: string, attempt: nat)

  function PlacedStop(w: StopOrder, p: Placement, s: Settings): Listed {
    Listed(p.id, w.symbol, w.qty, w.stopPrice, w.Tif(), Idempotency.Key(s.digest, w.decision, "stop", p.attempt))
  }

  function Placed(toPlace: seq<StopOrder>, placements: seq<Placement>, s: Settings): (placed: seq<Listed>)
    requires |placements| == |toPlace|
    ensures |placed| == |toPlace|
    ensures forall i | 0 <= i < |placed| :: placed[i] == PlacedStop(toPlace[i], placements[i], s)
  {
    seq(|toPlace|, i requires 0 <= i < |toPlace| => PlacedStop(toPlace[i], placements[i], s))
  }

  function Remaining(stops: seq<Listed>, cancelled: seq<string>): seq<Listed> {
    if stops == [] then []
    else (if stops[0].id in cancelled then [] else [stops[0]]) + Remaining(stops[1..], cancelled)
  }

  /** The plan carried out: cancelled orders are gone, placed ones are listed. */
  function After(plan: Plan, stops: seq<Listed>, placements: seq<Placement>, s: Settings): seq<Listed>
    requires |placements| == |plan.toPlace|
  {
    Remaining(stops, plan.toCancel) + Placed(plan.toPlace, placements, s)
  }

  // ----- The lists of a plan, element by element -----

  lemma {:induction false} MissingIn(wanted: seq<StopOrder>, stops: seq<Listed>, w: StopOrder)
    ensures w in Missing(wanted, stops) <==> w in wanted && !Covered(w, stops)
  {
    if wanted != [] {
      MissingIn(wanted[1..], stops, w);
      assert wanted == [wanted[0]] + wanted[1..];
    }
  }

  lemma {:induction false} ObsoleteIn(stops: seq<Listed>, held: set<string>, wanted: seq<StopOrder>, id: string)
    ensures id in Obsolete(stops, held, wanted) <==> exists v | v in stops :: v.id == id && IsObsolete(v, held, wanted)
  {
    if stops != [] {
      ObsoleteIn(stops[1..], held, wanted, id);
      assert stops == [stops[0]] + stops[1..];
    }
  }

  lemma {:induction false} RemainingIn(stops: seq<Listed>, cancelled: seq<string>, v: Listed)
    ensures v in Remaining(stops, cancelled) <==> v in stops && v.id !in cancelled
  {
    if stops != [] {
      RemainingIn(stops[1..], cancelled, v);
      assert stops == [stops[0]] + stops[1..];
    }
  }

  lemma SameIdSameStop(stops: seq<Listed>, v: Listed, u: Listed)
    requires DistinctIds(stops) && v in stops && u in stops && v.id == u.id
    ensures v == u
  {
    var i :| 0 <= i < |stops| && stops[i] == v;
    var j :| 0 <= j < |stops| && stops[j] == u;
  }

  /** A listed stop goes exactly when it is obsolete. */
  lemma CancelledIsObsolete(stops: seq<Listed>, held: set<string>, wanted: seq<StopOrder>, v: Listed)
    requires DistinctIds(stops) && v in stops
    ensures v.id in Obsolete(stops, held, wanted) <==> IsObsolete(v, held, wanted)
  {
    ObsoleteIn(stops, held, wanted, v.id);
    if v.id in Obsolete(stops, held, wanted) {
      var u :| u in stops && u.id == v.id && IsObsolete(u, held, wanted);
      SameIdSameStop(stops, v, u);
    }
  }

  // ----- What is wanted does not depend on what is listed -----

  lemma {:induction false} OwnBoundIsBound(symbol: string, stops: seq<Listed>)
    requires AllOwn(stops)
    ensures OwnBound(symbol, stops) == Bound(symbol, stops)
  {
    if stops != [] {
      assert stops[0] in stops;
      OwnBoundIsBound(symbol, stops[1..]);
    }
  }

  /** The plan for the shares no foreign order binds. */
  function HoldingPlan(h: Holding, s: Settings): PositionPlan
    requires h.foreign <= h.qty
  {
    if h.symbol == "" then Skipped else PlanQuantity(h.symbol, h.qty - h.foreign, h.avgEntry, s)
  }

  lemma ReportPlansHolding(h: Holding, stops: seq<Listed>, s: Settings)
    requires AllOwn(stops) && h.foreign + Bound(h.symbol, stops) <= h.qty
    ensures PlanPosition(Report(h, stops), stops, s) == HoldingPlan(h, s)
  {
    OwnBoundIsBound(h.symbol, stops);
    assert ProtectedQty(Report(h, stops), stops) == h.qty - h.foreign;
  }

  lemma PlansAreStable(holdings: seq<Holding>, a: seq<Listed>, b: seq<Listed>, s: Settings)
    requires AllOwn(a) && AllOwn(b) && Binds(holdings, a) && Binds(holdings, b)
    ensures Plans(Reports(holdings, a), a, s) == Plans(Reports(holdings, b), b, s)
  {
    forall i | 0 <= i < |holdings|
      ensures Plans(Reports(holdings, a), a, s)[i] == Plans(Reports(holdings, b), b, s)[i]
    {
      ReportPlansHolding(holdings[i], a, s);
      ReportPlansHolding(holdings[i], b, s);
    }
  }

  /** Every leg belongs to the plan of a held position. */
  lemma {:induction false} WantedComesFromPlan(plans: seq<PositionPlan>, w: StopOrder) returns (i: nat)
    requires w in AllWanted(plans)
    ensures i < |plans| && w in Legs(plans[i])
    decreases |plans|
  {
    var n := |plans| - 1;
    if w in Legs(plans[n]) {
      i := n;
    } else {
      i := WantedComesFromPlan(plans[..n], w);
    }
  }

  lemma {:induction false} PlanIsIncluded(plans: seq<PositionPlan>, i: nat)
    requires i < |plans|
    ensures (forall w | w in Legs(plans[i]) :: w in AllWanted(plans)) && Held(plans[i]) <= HeldSymbols(plans)
    decreases |plans|
  {
    var n := |plans| - 1;
    if i < n {
      PlanIsIncluded(plans[..n], i);
      assert plans[..n][i] == plans[i];
    }
  }

  lemma LegsNameTheirPosition(pos: Position, stops: seq<Listed>, s: Settings, w: StopOrder)
    requires w in Legs(PlanPosition(pos, stops, s))
    ensures w.symbol == pos.symbol && pos.symbol in Held(PlanPosition(pos, stops, s)) && w.qty >= MIN_BROKER_QTY
    ensures w.decision == DecisionId(w.symbol, w.leg, s.session)
  {
  }

  lemma WantedIsHeld(positions: seq<Position>, stops: seq<Listed>, s: Settings, w: StopOrder)
    requires w in AllWanted(Plans(positions, stops, s))
    ensures w.symbol in HeldSymbols(Plans(positions, stops, s))
    ensures w.decision == DecisionId(w.symbol, w.leg, s.session) && w.qty >= MIN_BROKER_QTY
  {
    var plans := Plans(positions, stops, s);
    var i := WantedComesFromPlan(plans, w);
    LegsNameTheirPosition(positions[i], stops, s, w);
    PlanIsIncluded(plans, i);
  }

  // ----- One step reconciles -----

  /** Carrying a plan out for fixed wishes leaves nothing to place and nothing to cancel. */
  lemma AppliedIsReconciled(wanted: seq<StopOrder>, held: set<string>, plan: Plan, s: Settings,
                            stops: seq<Listed>, placements: seq<Placement>)
    requires DistinctIds(stops) && forall w | w in wanted :: w.symbol in held
    requires plan.toPlace == Missing(wanted, stops) && plan.toCancel == Obsolete(stops, held, wanted)
    requires |placements| == |plan.toPlace|
    ensures forall w | w in wanted :: Covered(w, After(plan, stops, placements, s))
    ensures forall v | v in After(plan, stops, placements, s) :: !IsObsolete(v, held, wanted)
  {
    var placed, after := Placed(plan.toPlace, placements, s), After(plan, stops, placements, s);
    forall w | w in wanted ensures Covered(w, after) {
      MissingIn(wanted, stops, w);
      if w in plan.toPlace {
        var i :| 0 <= i < |plan.toPlace| && plan.toPlace[i] == w;
        assert placed[i] in after && Matches(placed[i], w);
      } else {
        var v :| v in stops && Matches(v, w);
        CancelledIsObsolete(stops, held, wanted, v);
        RemainingIn(stops, plan.toCancel, v);
        assert v in after;
      }
    }
    forall v | v in after ensures !IsObsolete(v, held, wanted) {
      if v in placed {
        var i :| 0 <= i < |placed| && placed[i] == v;
        MissingIn(wanted, stops, plan.toPlace[i]);
        assert Matches(v, plan.toPlace[i]);
      } else {
        RemainingIn(stops, plan.toCancel, v);
        CancelledIsObsolete(stops, held, wanted, v);
      }
    }
  }

  lemma {:induction false} NothingMissing(wanted: seq<StopOrder>, stops: seq<Listed>)
    requires forall w | w in wanted :: Covered(w, stops)
    ensures Missing(wanted, stops) == []
  {
    if wanted != [] {
      assert wanted[0] in wanted;
      NothingMissing(wanted[1..], stops);
    }
  }

  lemma {:induction false} NothingObsolete(stops: seq<Listed>, held: set<string>, wanted: seq<StopOrder>)
    requires forall v | v in stops :: !IsObsolete(v, held, wanted)
    ensures Obsolete(stops, held, wanted) == []
  {
    if stops != [] {
      assert stops[0] in stops;
      NothingObsolete(stops[1..], held, wanted);
    }
  }

  lemma PrefixBehind(c: char, p: string, t: string)
    ensures [c] + p <= [c] + t <==> p <= t
  {
    if p <= t {
      assert ([c] + t)[..1 + |p|] == [c] + t[..|p|];
    } else if |p| <= |t| {
      var i :| 0 <= i < |p| && p[i] != t[i];
      assert ([c] + p)[1 + i] != ([c] + t)[1 + i];
    }
  }

  lemma OwnKeyShape(attempt: nat, body: string)
    ensures IsOwnKey(Idempotency.Prefix("stop", attempt) + body) <==> "stop-" <= body
  {
    var digits := Idempotency.Decimal(attempt);
    var key := Idempotency.Prefix("stop", attempt) + body;
    assert key[5..] == digits + (['-'] + body);
    Idempotency.SpanOfPrefix(digits, ['-'] + body, Idempotency.IsDigit);
    assert key[5 + |digits|..] == ['-'] + body;
    assert "-stop-" == ['-'] + "stop-";
    PrefixBehind('-', "stop-", body);
  }

  /**
   A placed stop is recognised as the planner's own exactly when its decision fits the literal
   form of the key.
   */
  lemma OwnExactlyWhenLiteral(s: Settings, symbol: string, leg: Leg, attempt: nat)
    requires Idempotency.IsDigest(s.digest)
    ensures var decision := DecisionId(symbol, leg, s.session);
            IsOwnKey(Idempotency.Key(s.digest, decision, "stop", attempt)) <==>
            Idempotency.IsLiteral(decision, "stop", attempt)
  {
    var decision := DecisionId(symbol, leg, s.session);
    assert "stop-" <= decision;
    Idempotency.BodyForm(s.digest, decision, "stop", attempt);
    OwnKeyShape(attempt, Idempotency.Body(s.digest, decision, "stop", attempt));
  }

  /** Every placed stop got a key in the literal form. */
  ghost predicate LiteralKeys(toPlace: seq<StopOrder>, placements: seq<Placement>) {
    && |placements| == |toPlace|
    && forall i | 0 <= i < |toPlace| :: Idempotency.IsLiteral(toPlace[i].decision, "stop", placements[i].attempt)
  }

  lemma AfterIsOwn(positions: seq<Position>, stops: seq<Listed>, s: Settings, placements: seq<Placement>)
    requires Idempotency.IsDigest(s.digest) && AllOwn(stops) && !NewSession(s)
    requires LiteralKeys(PlanFor(positions, stops, s).toPlace, placements)
    ensures AllOwn(After(PlanFor(positions, stops, s), stops, placements, s))
  {
    var plan := PlanFor(positions, stops, s);
    forall v | v in After(plan, stops, placements, s) ensures IsOwnKey(v.key) {
      var placed := Placed(plan.toPlace, placements, s);
      if v in placed {
        var i :| 0 <= i < |placed| && placed[i] == v;
        var w := plan.toPlace[i];
        MissingIn(AllWanted(Plans(positions, stops, s)), stops, w);
        WantedIsHeld(positions, stops, s, w);
        OwnExactlyWhenLiteral(s, w.symbol, w.leg, placements[i].attempt);
      } else {
        RemainingIn(stops, plan.toCancel, v);
      }
    }
  }

  /**
   Convergence in one step: after the broker has carried a plan out, planning again wants
   nothing placed and nothing cancelled and reports the same unprotected positions.
   */
  lemma OneStepConverges(holdings: seq<Holding>, stops: seq<Listed>, s: Settings, placements: seq<Placement>)
    requires Idempotency.IsDigest(s.digest) && !NewSession(s)
    requires DistinctIds(stops) && AllOwn(stops) && Binds(holdings, stops)
    requires LiteralKeys(PlanFor(Reports(holdings, stops), stops, s).toPlace, placements)
    requires Binds(holdings, After(PlanFor(Reports(holdings, stops), stops, s), stops, placements, s))
    ensures var plan := PlanFor(Reports(holdings, stops), stops, s);
            var after := After(plan, stops, placements, s);
            PlanFor(Reports(holdings, after), after, s) == Plan([], [], plan.unprotected)
  {
    var positions := Reports(holdings, stops);
    var plan, plans := PlanFor(positions, stops, s), Plans(positions, stops, s);
    var after, wanted, held := After(plan, stops, placements, s), AllWanted(plans), HeldSymbols(plans);
    AfterIsOwn(positions, stops, s, placements);
    PlansAreStable(holdings, stops, after, s);
    forall w | w in wanted ensures w.symbol in held {
      WantedIsHeld(positions, stops, s, w);
    }
    AppliedIsReconciled(wanted, held, plan, s, stops, placements);
    NothingMissing(wanted, after);
    NothingObsolete(after, held, wanted);
  }

  /** A listed stop that matches a wanted leg is never cancelled. */
  lemma MatchingStopIsKept(positions: seq<Position>, stops: seq<Listed>, s: Settings, v: Listed, w: StopOrder)
    requires DistinctIds(stops) && v in stops && w in AllWanted(Plans(positions, stops, s)) && Matches(v, w)
    ensures v.id !in PlanFor(positions, stops, s).toCancel
  {
    WantedIsHeld(positions, stops, s, w);
    CancelledIsObsolete(stops, HeldSymbols(Plans(positions, stops, s)), AllWanted(Plans(positions, stops, s)), v);
  }

  // ----- Outside the conditions -----

  lemma {:induction false} NoDayStopLeft(stops: seq<Listed>, v: Listed)
    requires v in WithoutDay(stops)
    ensures !v.tif.Day?
  {
    if stops[0].tif.Day? || v != stops[0] {
      NoDayStopLeft(stops[1..], v);
    }
  }

  /**
   A fraction leg beside a matching listed day stop is placed exactly when the session is new; the
   listed stop is cancelled in neither case.
   */
  lemma FractionRenewedExactlyInNewSession(positions: seq<Position>, stops: seq<Listed>, s: Settings, v: Listed, w: StopOrder)
    requires DistinctIds(stops) && v in stops
    requires w in AllWanted(Plans(positions, stops, s)) && w.leg.Fraction? && Matches(v, w)
    ensures w in PlanFor(positions, stops, s).toPlace <==>
            s.session != None && s.listedSession != None && s.session != s.listedSession
    ensures v.id !in PlanFor(positions, stops, s).toCancel
  {
    MatchingStopIsKept(positions, stops, s, v, w);
    var counting := Counting(stops, s);
    if NewSession(s) {
      forall u | u in counting ensures !Matches(u, w) {
        NoDayStopLeft(stops, u);
      }
    }
    MissingIn(AllWanted(Plans(positions, stops, s)), counting, w);
  }

  /** The engine notes the running session as the listed one after its first plan of the day. */
  function NextCycle(s: Settings): Settings {
    s.(listedSession := s.session)
  }

  lemma WishesIgnoreListedSession(positions: seq<Position>, stops: seq<Listed>, s: Settings)
    ensures Plans(positions, stops, NextCycle(s)) == Plans(positions, stops, s)
  {
    forall i | 0 <= i < |positions|
      ensures PlanPosition(positions[i], stops, NextCycle(s)) == PlanPosition(positions[i], stops, s) {
      SamePlanQuantity(positions[i].symbol, ProtectedQty(positions[i], stops), positions[i].avgEntry, s);
    }
  }

  lemma SamePlanQuantity(symbol: string, qty: nat, avgEntry: real, s: Settings)
    ensures PlanQuantity(symbol, qty, avgEntry, NextCycle(s)) == PlanQuantity(symbol, qty, avgEntry, s)
  {
    var price := StopPrice(avgEntry, s.stopLossPct);
    assert LegsFor(symbol, qty, price, NextCycle(s)) == LegsFor(symbol, qty, price, s);
  }

  /**
   Two cycles of one day: the first plan places the leg again. If that placement does not land and
   the expired stop is still listed, every later plan of the day takes the expired stop for cover:
   it neither places the leg nor cancels the stop nor reports anything.
   */
  lemma UnlandedRenewalIsForgotten(positions: seq<Position>, stops: seq<Listed>, s: Settings, v: Listed, w: StopOrder)
    requires s.session != None && s.listedSession != None && s.session != s.listedSession && DistinctIds(stops) && v in stops
    requires w in AllWanted(Plans(positions, stops, s)) && w.leg.Fraction? && Matches(v, w)
    ensures w in PlanFor(positions, stops, s).toPlace
    ensures var second := PlanFor(positions, stops, NextCycle(s));
            && w in AllWanted(Plans(positions, stops, NextCycle(s)))
            && w !in second.toPlace && v.id !in second.toCancel
            && second.unprotected == PlanFor(positions, stops, s).unprotected
  {
    WishesIgnoreListedSession(positions, stops, s);
    FractionRenewedExactlyInNewSession(positions, stops, s, v, w);
    FractionRenewedExactlyInNewSession(positions, stops, NextCycle(s), v, w);
  }

  /**
   A position of whole shares and a fraction whose whole-share stop is listed and binds the
   whole shares: the stop is kept if and only if its key is recognised as the planner's own.
   For a symbol outside the literal alphabet it is cancelled, and only the fraction is stopped.
   */
  lemma WholeStopKeptExactlyWhenOwn(pos: Position, stop: Listed, shares: nat, rest: nat, s: Settings)
    requires pos.symbol != "" && pos.qty == shares * SHARE + rest && pos.available == Some(rest)
    requires shares >= 1 && MIN_BROKER_QTY <= rest < SHARE
    requires pos.avgEntry > 0.0 && StopPrice(pos.avgEntry, s.stopLossPct) > 0.0
    requires stop.id != "" && stop.symbol == pos.symbol && stop.tif.Gtc? && stop.qty == shares * SHARE
    requires stop.stopPrice == StopPrice(pos.avgEntry, s.stopLossPct)
    ensures var plan := PlanFor([pos], [stop], s);
            && plan.toCancel == (if IsOwnKey(stop.key) then [] else [stop.id])
            && plan.toPlace == [Build(pos.symbol, rest, stop.stopPrice, Fraction, s)]
  {
    var a := Build(pos.symbol, stop.qty, stop.stopPrice, Whole, s);
    var b := Build(pos.symbol, rest, stop.stopPrice, Fraction, s);
    ProtectedBesideOneStop(pos, stop);
    PlanOfSharesAndRest(pos.symbol, if IsOwnKey(stop.key) then shares else 0, rest, pos.avgEntry, s);
    OneStopBesideTwoLegs(pos, stop, a, b, s);
  }

  lemma OneStopBesideTwoLegs(pos: Position, stop: Listed, a: StopOrder, b: StopOrder, s: Settings)
    requires a.symbol == b.symbol == pos.symbol && stop.tif.Gtc? && stop.id != ""
    requires Matches(stop, a) && !Matches(stop, b)
    requires PlanPosition(pos, [stop], s) == Wanted(pos.symbol, if IsOwnKey(stop.key) then [a, b] else [b])
    ensures var plan := PlanFor([pos], [stop], s);
            plan.toPlace == [b] && plan.toCancel == if IsOwnKey(stop.key) then [] else [stop.id]
  {
    PlanOfOnePosition(pos, stop, if IsOwnKey(stop.key) then [a, b] else [b], s);
    StopCoversFirstLegOnly(stop, a, b);
  }

  lemma ProtectedBesideOneStop(pos: Position, stop: Listed)
    requires stop.symbol == pos.symbol && pos.available.Some? && pos.available.value >= 0 && stop.qty >= 0
    requires pos.qty == pos.available.value + stop.qty > 0
    ensures ProtectedQty(pos, [stop]) == if IsOwnKey(stop.key) then pos.qty else pos.available.value
  {
    assert OwnBound(pos.symbol, [stop][1..]) == 0;
  }

  lemma PlanOfOnePosition(pos: Position, stop: Listed, legs: seq<StopOrder>, s: Settings)
    requires PlanPosition(pos, [stop], s) == Wanted(pos.symbol, legs)
    ensures PlanFor([pos], [stop], s) ==
            Plan(Missing(legs, Counting([stop], s)), Obsolete([stop], {pos.symbol}, legs), [])
  {
    assert Plans([pos], [stop], s) == [Wanted(pos.symbol, legs)];
    WantedOfOne(pos.symbol, legs);
  }

  lemma PlanOfSharesAndRest(symbol: string, shares: nat, rest: nat, avgEntry: real, s: Settings)
    requires MIN_BROKER_QTY <= rest < SHARE && avgEntry > 0.0 && StopPrice(avgEntry, s.stopLossPct) > 0.0
    ensures var price := StopPrice(avgEntry, s.stopLossPct);
            var b := Build(symbol, rest, price, Fraction, s);
            PlanQuantity(symbol, shares * SHARE + rest, avgEntry, s) ==
            Wanted(symbol, if shares == 0 then [b] else [Build(symbol, shares * SHARE, price, Whole, s), b])
  {
    assert (shares * SHARE + rest) / SHARE == shares;
    var b := Build(symbol, rest, StopPrice(avgEntry, s.stopLossPct), Fraction, s);
    assert [] + [b] == [b];
  }

  lemma WantedOfOne(symbol: string, legs: seq<StopOrder>)
    ensures AllWanted([Wanted(symbol, legs)]) == legs && HeldSymbols([Wanted(symbol, legs)]) == {symbol}
    ensures AllUnprotected([Wanted(symbol, legs)]) == []
  {
    assert [Wanted(symbol, legs)][..0] == [];
  }

  lemma StopCoversFirstLegOnly(stop: Listed, a: StopOrder, b: StopOrder)
    requires Matches(stop, a) && !Matches(stop, b) && a.symbol == b.symbol && !stop.tif.Day? && stop.id != ""
    ensures WithoutDay([stop]) == [stop]
    ensures Missing([a, b], [stop]) == [b] && Missing([b], [stop]) == [b]
    ensures Obsolete([stop], {a.symbol}, [a, b]) == [] && Obsolete([stop], {a.symbol}, [b]) == [stop.id]
  {
    assert [stop][1..] == [] && [b][1..] == [] && [a, b][1..] == [b];
    assert stop in [stop] && Covered(a, [stop]) && !Covered(b, [stop]);
    assert Missing([b], [stop]) == [b];
    assert [a, b][0] in [a, b] && [b][0] in [b];
  }
}
