/** How many shares the stops cover after a plan has been carried out. */
module StopCoverage {
  import opened BrokerStops
  import opened StopProtection
  import opened StopReconciliation

  // ----- Stops matching one leg -----

  function Count(stops: seq<Listed>, w: StopOrder): nat {
    if stops == [] then 0 else (if Matches(stops[0], w) then 1 else 0) + Count(stops[1..], w)
  }

  function Total(stops: seq<Listed>, w: StopOrder): int {
    if stops == [] then 0 else (if Matches(stops[0], w) then stops[0].qty else 0) + Total(stops[1..], w)
  }

  lemma {:induction false} TotalWithinTolerance(stops: seq<Listed>, w: StopOrder)
    ensures Count(stops, w) * (w.qty - EPSILON) <= Total(stops, w) <= Count(stops, w) * (w.qty + EPSILON)
  {
    if stops != [] {
      TotalWithinTolerance(stops[1..], w);
      Successor(Count(stops[1..], w), w.qty - EPSILON);
      Successor(Count(stops[1..], w), w.qty + EPSILON);
    }
  }

  lemma Successor(c: int, k: int)
    ensures (c + 1) * k == c * k + k
  {
  }

  lemma {:induction false} CountConcat(a: seq<Listed>, b: seq<Listed>, w: StopOrder)
    ensures Count(a + b, w) == Count(a, w) + Count(b, w)
  {
    if a == [] {
      assert a + b == b;
    } else {
      assert (a + b)[1..] == a[1..] + b;
      CountConcat(a[1..], b, w);
    }
  }

  lemma {:induction false} CountIsCover(stops: seq<Listed>, w: StopOrder)
    ensures Count(stops, w) > 0 <==> Covered(w, stops)
  {
    if stops != [] {
      CountIsCover(stops[1..], w);
      assert stops == [stops[0]] + stops[1..];
    }
  }

  function SumOfTotals(stops: seq<Listed>, legs: seq<StopOrder>): int {
    if legs == [] then 0 else Total(stops, legs[0]) + SumOfTotals(stops, legs[1..])
  }

  /** The legs of one position: one symbol, different legs, none too small for the broker. */
  ghost predicate LegsOf(symbol: string, legs: seq<StopOrder>) {
    && 1 <= |legs| <= 2
    && (forall w | w in legs :: w.symbol == symbol && w.qty >= MIN_BROKER_QTY)
    && (|legs| == 2 ==> legs[0].leg != legs[1].leg)
  }

  lemma SumOfTotalsIs(stops: seq<Listed>, legs: seq<StopOrder>)
    requires 1 <= |legs| <= 2
    ensures SumOfTotals(stops, legs) == Total(stops, legs[0]) + (if |legs| == 2 then Total(stops, legs[1]) else 0)
  {
    assert SumOfTotals(stops, legs[1..]) == if |legs| == 2 then Total(stops, legs[1]) + SumOfTotals(stops, legs[1..][1..]) else 0;
  }

  /** If every stop of a symbol matches one of its legs, the legs' totals are all that is bound. */
  lemma {:induction false} BoundIsSumOfTotals(symbol: string, stops: seq<Listed>, legs: seq<StopOrder>)
    requires LegsOf(symbol, legs)
    requires forall v | v in stops && v.symbol == symbol :: exists w | w in legs :: Matches(v, w)
    ensures Bound(symbol, stops) == SumOfTotals(stops, legs)
  {
    SumOfTotalsIs(stops, legs);
    if stops != [] {
      BoundIsSumOfTotals(symbol, stops[1..], legs);
      SumOfTotalsIs(stops[1..], legs);
      assert stops[0] in stops;
    }
  }

  // ----- Stops per leg after a plan -----

  ghost predicate DistinctLegs(wanted: seq<StopOrder>) {
    forall i, j | 0 <= i < j < |wanted| :: (wanted[i].symbol, wanted[i].leg) != (wanted[j].symbol, wanted[j].leg)
  }

  /** The legs of every plan carry its symbol, and no two plans share a symbol. */
  ghost predicate DistinctPlans(plans: seq<PositionPlan>) {
    && (forall i | 0 <= i < |plans| ::
          DistinctLegs(Legs(plans[i])) && forall w | w in Legs(plans[i]) :: w.symbol == plans[i].symbol)
    && forall i, j | 0 <= i < j < |plans| :: plans[i].Wanted? && plans[j].Wanted? ==> plans[i].symbol != plans[j].symbol
  }

  lemma {:induction false} WantedLegsAreDistinct(plans: seq<PositionPlan>)
    requires DistinctPlans(plans)
    ensures DistinctLegs(AllWanted(plans))
    decreases |plans|
  {
    var n := |plans| - 1;
    if n >= 0 {
      EarlierPlansDistinct(plans);
      WantedLegsAreDistinct(plans[..n]);
      NewPlanNewSymbol(plans);
      AllWantedStep(plans);
      if plans[n].Wanted? {
        DistinctConcat(AllWanted(plans[..n]), Legs(plans[n]), plans[n].symbol);
      }
    }
  }

  lemma AllWantedStep(plans: seq<PositionPlan>)
    requires |plans| > 0
    ensures var n := |plans| - 1;
            AllWanted(plans) == if plans[n].Wanted? then AllWanted(plans[..n]) + Legs(plans[n]) else AllWanted(plans[..n])
  {
  }

  lemma EarlierPlansDistinct(plans: seq<PositionPlan>)
    requires DistinctPlans(plans) && |plans| > 0
    ensures DistinctPlans(plans[..|plans| - 1])
  {
  }

  lemma NewPlanNewSymbol(plans: seq<PositionPlan>)
    requires DistinctPlans(plans) && |plans| > 0
    ensures var n := |plans| - 1;
            && DistinctLegs(Legs(plans[n])) && (forall w | w in Legs(plans[n]) :: w.symbol == plans[n].symbol)
            && (plans[n].Wanted? ==> forall w | w in AllWanted(plans[..n]) :: w.symbol != plans[n].symbol)
  {
    var n := |plans| - 1;
    if plans[n].Wanted? {
      forall w | w in AllWanted(plans[..n]) ensures w.symbol != plans[n].symbol {
        var i := WantedComesFromPlan(plans[..n], w);
        assert plans[..n][i] == plans[i];
      }
    }
  }

  lemma DistinctConcat(a: seq<StopOrder>, b: seq<StopOrder>, symbol: string)
    requires DistinctLegs(a) && DistinctLegs(b)
    requires (forall w | w in a :: w.symbol != symbol) && (forall w | w in b :: w.symbol == symbol)
    ensures DistinctLegs(a + b)
  {
  }

  lemma {:induction false} MissingKeepsDistinct(wanted: seq<StopOrder>, stops: seq<Listed>)
    requires DistinctLegs(wanted)
    ensures DistinctLegs(Missing(wanted, stops))
  {
    if wanted != [] {
      MissingKeepsDistinct(wanted[1..], stops);
      var rest := Missing(wanted[1..], stops);
      forall j | 0 <= j < |rest| ensures (wanted[0].symbol, wanted[0].leg) != (rest[j].symbol, rest[j].leg) {
        MissingIn(wanted[1..], stops, rest[j]);
        assert rest[j] in rest;
      }
      assert Missing(wanted, stops) == rest || Missing(wanted, stops) == [wanted[0]] + rest;
    }
  }

  lemma PlacedMatchesItsLeg(u: StopOrder, p: Placement, s: Settings, w: StopOrder)
    requires (u.symbol, u.leg) == (w.symbol, w.leg) ==> u == w
    ensures Matches(PlacedStop(u, p, s), w) <==> u == w
  {
  }

  /** A leg to be placed gets exactly one new stop, any other leg none. */
  lemma {:induction false} PlacedOnce(toPlace: seq<StopOrder>, placements: seq<Placement>, s: Settings, w: StopOrder)
    requires |placements| == |toPlace| && DistinctLegs(toPlace)
    requires forall u | u in toPlace && (u.symbol, u.leg) == (w.symbol, w.leg) :: u == w
    ensures Count(Placed(toPlace, placements, s), w) == if w in toPlace then 1 else 0
  {
    var placed := Placed(toPlace, placements, s);
    if toPlace != [] {
      var u, rest := toPlace[0], toPlace[1..];
      PlacedOnce(rest, placements[1..], s, w);
      assert placed[1..] == Placed(rest, placements[1..], s);
      assert toPlace == [u] + rest && u in toPlace;
      PlacedMatchesItsLeg(u, placements[0], s, w);
    }
  }

  lemma {:induction false} RemainingCount(stops: seq<Listed>, cancelled: seq<string>, w: StopOrder)
    requires forall v | v in stops && Matches(v, w) :: v.id !in cancelled
    ensures Count(Remaining(stops, cancelled), w) == Count(stops, w)
  {
    if stops != [] {
      assert stops[0] in stops;
      RemainingCount(stops[1..], cancelled, w);
      assert [] + Remaining(stops[1..], cancelled) == Remaining(stops[1..], cancelled);
      assert ([stops[0]] + Remaining(stops[1..], cancelled))[1..] == Remaining(stops[1..], cancelled);
    }
  }

  lemma SameLegSameOrder(wanted: seq<StopOrder>, u: StopOrder, w: StopOrder)
    requires DistinctLegs(wanted) && u in wanted && w in wanted && (u.symbol, u.leg) == (w.symbol, w.leg)
    ensures u == w
  {
    var i :| 0 <= i < |wanted| && wanted[i] == u;
    var j :| 0 <= j < |wanted| && wanted[j] == w;
  }

  /** After the plan a leg has the stops that matched it before, or one new stop if none did. */
  lemma CountAfter(wanted: seq<StopOrder>, held: set<string>, plan: Plan, s: Settings, stops: seq<Listed>,
                   placements: seq<Placement>, w: StopOrder)
    requires DistinctIds(stops) && DistinctLegs(wanted) && w in wanted && w.symbol in held
    requires plan.toPlace == Missing(wanted, stops) && plan.toCancel == Obsolete(stops, held, wanted)
    requires |placements| == |plan.toPlace|
    ensures Count(After(plan, stops, placements, s), w) == if Count(stops, w) == 0 then 1 else Count(stops, w)
  {
    forall v | v in stops && Matches(v, w) ensures v.id !in plan.toCancel {
      CancelledIsObsolete(stops, held, wanted, v);
    }
    RemainingCount(stops, plan.toCancel, w);
    MissingKeepsDistinct(wanted, stops);
    forall u | u in plan.toPlace && (u.symbol, u.leg) == (w.symbol, w.leg) ensures u == w {
      MissingIn(wanted, stops, u);
      SameLegSameOrder(wanted, u, w);
    }
    PlacedOnce(plan.toPlace, placements, s, w);
    CountConcat(Remaining(stops, plan.toCancel), Placed(plan.toPlace, placements, s), w);
    MissingIn(wanted, stops, w);
    CountIsCover(stops, w);
  }

  // ----- Shares covered -----

  /** The legs share out the quantity, all but less than the broker's minimum. */
  ghost predicate Divides(qty: nat, symbol: string, legs: seq<StopOrder>) {
    && LegsOf(symbol, legs)
    && (|legs| == 2 ==> legs[0].qty + legs[1].qty == qty)
    && (|legs| == 1 ==> qty - MIN_BROKER_QTY < legs[0].qty <= qty && (legs[0].qty == qty || legs[0].qty >= SHARE))
  }

  /** Arithmetic of the two legs: too much is bound exactly when a leg is stopped twice. */
  lemma LegsCover(symbol: string, qty: nat, legs: seq<StopOrder>, stops: seq<Listed>)
    requires Divides(qty, symbol, legs)
    requires Bound(symbol, stops) == SumOfTotals(stops, legs) && forall w | w in legs :: Count(stops, w) >= 1
    ensures var bound := Bound(symbol, stops);
            && (bound <= qty + EPSILON * |legs| <==> forall w | w in legs :: Count(stops, w) == 1)
            && (bound <= qty + EPSILON * |legs| ==> qty - MIN_BROKER_QTY - EPSILON * |legs| < bound)
  {
    SumOfTotalsIs(stops, legs);
    CountedLeg(stops, legs[0]);
    if |legs| == 2 {
      CountedLeg(stops, legs[1]);
    }
  }

  lemma CountedLeg(stops: seq<Listed>, w: StopOrder)
    requires w.qty >= MIN_BROKER_QTY && Count(stops, w) >= 1
    ensures Count(stops, w) == 1 ==> w.qty - EPSILON <= Total(stops, w) <= w.qty + EPSILON
    ensures Count(stops, w) >= 2 ==> Total(stops, w) >= 2 * (w.qty - EPSILON)
    ensures Total(stops, w) >= w.qty - EPSILON
  {
    TotalWithinTolerance(stops, w);
    AtLeastTimes(Count(stops, w), w.qty - EPSILON);
  }

  lemma AtLeastTimes(c: nat, k: nat)
    ensures c >= 1 ==> c * k >= k
    ensures c >= 2 ==> c * k >= 2 * k
  {
    if c >= 2 {
      assert c * k == 2 * k + (c - 2) * k;
    }
  }

  lemma LegsForShape(symbol: string, qty: nat, price: real, s: Settings)
    requires qty >= MIN_BROKER_QTY
    ensures Divides(qty, symbol, LegsFor(symbol, qty, price, s))
  {
  }

  lemma WantedLegs(symbol: string, qty: nat, price: real, legs: seq<StopOrder>, s: Settings)
    requires qty >= MIN_BROKER_QTY && legs == LegsFor(symbol, qty, price, s)
    ensures Divides(qty, symbol, legs)
  {
    LegsForShape(symbol, qty, price, s);
  }

  lemma PlannedLegs(symbol: string, qty: nat, avgEntry: real, s: Settings)
    requires PlanQuantity(symbol, qty, avgEntry, s).Wanted?
    ensures qty >= MIN_BROKER_QTY
    ensures PlanQuantity(symbol, qty, avgEntry, s) == Wanted(symbol, LegsFor(symbol, qty, StopPrice(avgEntry, s.stopLossPct), s))
  {
  }

  lemma HoldingIsPlanned(h: Holding, s: Settings)
    requires h.foreign <= h.qty && HoldingPlan(h, s).Wanted?
    ensures HoldingPlan(h, s) == PlanQuantity(h.symbol, h.qty - h.foreign, h.avgEntry, s)
  {
  }

  /** What a planned holding wants. */
  lemma HoldingLegs(h: Holding, s: Settings)
    requires h.foreign <= h.qty && HoldingPlan(h, s).Wanted?
    ensures HoldingPlan(h, s).symbol == h.symbol && Divides(h.qty - h.foreign, h.symbol, HoldingPlan(h, s).legs)
  {
    HoldingIsPlanned(h, s);
    PlannedIsDivided(HoldingPlan(h, s), h.symbol, h.qty - h.foreign, h.avgEntry, s);
  }

  lemma PlannedIsDivided(plan: PositionPlan, symbol: string, qty: nat, avgEntry: real, s: Settings)
    requires plan.Wanted? && plan == PlanQuantity(symbol, qty, avgEntry, s)
    ensures plan.symbol == symbol && Divides(qty, symbol, plan.legs)
  {
    PlannedLegs(symbol, qty, avgEntry, s);
    WantedLegs(symbol, qty, StopPrice(avgEntry, s.stopLossPct), plan.legs, s);
  }

  /** A plan whose wishes and held symbols are fixed, carried out. */
  datatype Step = Step(wanted: seq<StopOrder>, held: set<string>, plan: Plan, stops: seq<Listed>,
                       placements: seq<Placement>, settings: Settings)

  ghost predicate IsStep(x: Step) {
    && DistinctIds(x.stops) && DistinctLegs(x.wanted)
    && (forall w | w in x.wanted :: w.symbol in x.held)
    && x.plan.toPlace == Missing(x.wanted, x.stops) && x.plan.toCancel == Obsolete(x.stops, x.held, x.wanted)
    && |x.placements| == |x.plan.toPlace| && forall p | p in x.placements :: p.id != ""
  }

  /** The legs are all that is wanted for the symbol. */
  ghost predicate AllLegsOf(x: Step, symbol: string, legs: seq<StopOrder>) {
    && (forall w | w in legs :: w in x.wanted)
    && (forall w | w in x.wanted && w.symbol == symbol :: w in legs)
  }

  lemma IdsAfter(x: Step, v: Listed)
    requires IsStep(x) && v in After(x.plan, x.stops, x.placements, x.settings)
    ensures v.id != ""
  {
    var placed := Placed(x.plan.toPlace, x.placements, x.settings);
    if v in placed {
      var i :| 0 <= i < |placed| && placed[i] == v;
      assert x.placements[i] in x.placements;
    } else {
      RemainingIn(x.stops, x.plan.toCancel, v);
    }
  }

  /** After the plan, every stop of a position with legs matches one of them. */
  lemma EveryStopIsWanted(x: Step, symbol: string, legs: seq<StopOrder>, v: Listed)
    requires IsStep(x) && LegsOf(symbol, legs) && AllLegsOf(x, symbol, legs)
    requires v in After(x.plan, x.stops, x.placements, x.settings) && v.symbol == symbol
    ensures exists w | w in legs :: Matches(v, w)
  {
    AppliedIsReconciled(x.wanted, x.held, x.plan, x.settings, x.stops, x.placements);
    IdsAfter(x, v);
    assert legs[0] in legs;
    var w :| w in x.wanted && w.symbol == v.symbol && Matches(v, w);
  }

  function AfterStep(x: Step): seq<Listed>
    requires |x.placements| == |x.plan.toPlace|
  {
    After(x.plan, x.stops, x.placements, x.settings)
  }

  lemma StepCovers(x: Step, symbol: string, qty: nat, legs: seq<StopOrder>)
    requires IsStep(x) && AllLegsOf(x, symbol, legs) && Divides(qty, symbol, legs)
    ensures Covers(x.stops, AfterStep(x), symbol, qty, legs)
  {
    var after := AfterStep(x);
    forall w | w in legs ensures Count(after, w) == if Count(x.stops, w) == 0 then 1 else Count(x.stops, w) {
      CountAfter(x.wanted, x.held, x.plan, x.settings, x.stops, x.placements, w);
    }
    forall v | v in after && v.symbol == symbol ensures exists w | w in legs :: Matches(v, w) {
      EveryStopIsWanted(x, symbol, legs, v);
    }
    BoundIsSumOfTotals(symbol, after, legs);
    LegsCover(symbol, qty, legs, after);
  }

  /**
   The stops bind no more than the quantity, up to the tolerance per leg, if and only if no leg
   was already matched by two listed stops; then every leg has exactly one stop and less than
   the broker's minimum (plus the tolerance) stays uncovered.
   */
  ghost predicate Covers(stops: seq<Listed>, after: seq<Listed>, symbol: string, qty: nat, legs: seq<StopOrder>) {
    var bound, slack := Bound(symbol, after), EPSILON * |legs|;
    && (bound <= qty + slack <==> forall w | w in legs :: Count(stops, w) <= 1)
    && (bound <= qty + slack ==> qty - MIN_BROKER_QTY - slack < bound && forall w | w in legs :: Count(after, w) == 1)
  }

  lemma WantedIsHeldByPlan(plans: seq<PositionPlan>, w: StopOrder)
    requires DistinctPlans(plans) && w in AllWanted(plans)
    ensures w.symbol in HeldSymbols(plans)
  {
    var j := WantedComesFromPlan(plans, w);
    PlanIsIncluded(plans, j);
  }

  lemma LegsOfPlan(plans: seq<PositionPlan>, i: nat, w: StopOrder)
    requires DistinctPlans(plans) && i < |plans| && plans[i].Wanted?
    ensures w in plans[i].legs <==> w in AllWanted(plans) && w.symbol == plans[i].symbol
  {
    PlanIsIncluded(plans, i);
    if w in AllWanted(plans) && w.symbol == plans[i].symbol {
      var j := WantedComesFromPlan(plans, w);
    }
  }

  lemma PlansAreStep(plans: seq<PositionPlan>, x: Step, i: nat)
    requires DistinctPlans(plans) && x.wanted == AllWanted(plans) && x.held == HeldSymbols(plans)
    requires i < |plans| && plans[i].Wanted?
    ensures DistinctLegs(x.wanted) && forall w | w in x.wanted :: w.symbol in x.held
    ensures AllLegsOf(x, plans[i].symbol, plans[i].legs)
  {
    WantedLegsAreDistinct(plans);
    forall w | w in x.wanted ensures w.symbol in x.held {
      WantedIsHeldByPlan(plans, w);
    }
    forall w ensures w in plans[i].legs <==> w in x.wanted && w.symbol == plans[i].symbol {
      LegsOfPlan(plans, i, w);
    }
  }

  function StepOf(holdings: seq<Holding>, stops: seq<Listed>, s: Settings, placements: seq<Placement>): Step {
    var plans := Plans(Reports(holdings, stops), stops, s);
    Step(AllWanted(plans), HeldSymbols(plans), PlanFor(Reports(holdings, stops), stops, s), stops, placements, s)
  }

  lemma HoldingsAreStep(holdings: seq<Holding>, stops: seq<Listed>, s: Settings, placements: seq<Placement>, i: nat)
    requires !NewSession(s) && DistinctHoldings(holdings) && DistinctIds(stops) && AllOwn(stops) && Binds(holdings, stops)
    requires |placements| == |StepOf(holdings, stops, s, placements).plan.toPlace|
    requires forall p | p in placements :: p.id != ""
    requires i < |holdings| && HoldingPlan(holdings[i], s).Wanted?
    ensures var x := StepOf(holdings, stops, s, placements);
            IsStep(x) && AllLegsOf(x, holdings[i].symbol, HoldingPlan(holdings[i], s).legs)
  {
    var plans := Plans(Reports(holdings, stops), stops, s);
    PlansOfHoldings(holdings, stops, s);
    assert DistinctPlans(plans);
    PlansAreStep(plans, StepOf(holdings, stops, s, placements), i);
  }

  lemma PlansOfHoldings(holdings: seq<Holding>, stops: seq<Listed>, s: Settings)
    requires DistinctHoldings(holdings) && AllOwn(stops) && Binds(holdings, stops)
    ensures var plans := Plans(Reports(holdings, stops), stops, s);
            && DistinctPlans(plans)
            && forall j | 0 <= j < |plans| :: plans[j] == HoldingPlan(holdings[j], s) && (plans[j].Wanted? ==> plans[j].symbol == holdings[j].symbol)
  {
    var plans := Plans(Reports(holdings, stops), stops, s);
    forall j | 0 <= j < |plans|
      ensures plans[j] == HoldingPlan(holdings[j], s)
      ensures plans[j].Wanted? ==> plans[j].symbol == holdings[j].symbol && LegsOf(plans[j].symbol, plans[j].legs)
    {
      PlanOfHolding(holdings[j], stops, s);
    }
    DistinctSymbolsDistinctPlans(plans, holdings);
  }

  lemma DistinctSymbolsDistinctPlans(plans: seq<PositionPlan>, holdings: seq<Holding>)
    requires |plans| == |holdings| && DistinctHoldings(holdings)
    requires forall j | 0 <= j < |plans| ::
               plans[j].Wanted? ==> plans[j].symbol == holdings[j].symbol && LegsOf(plans[j].symbol, plans[j].legs)
    ensures DistinctPlans(plans)
  {
  }

  lemma PlanOfHolding(h: Holding, stops: seq<Listed>, s: Settings)
    requires AllOwn(stops) && h.foreign + Bound(h.symbol, stops) <= h.qty
    ensures PlanPosition(Report(h, stops), stops, s) == HoldingPlan(h, s)
    ensures HoldingPlan(h, s).Wanted? ==> HoldingPlan(h, s).symbol == h.symbol && LegsOf(h.symbol, HoldingPlan(h, s).legs)
  {
    ReportPlansHolding(h, stops, s);
    if HoldingPlan(h, s).Wanted? {
      HoldingLegs(h, s);
    }
  }

  lemma WantedIsCovered(holdings: seq<Holding>, stops: seq<Listed>, s: Settings, placements: seq<Placement>, i: nat)
    requires !NewSession(s) && DistinctHoldings(holdings) && DistinctIds(stops) && AllOwn(stops) && Binds(holdings, stops)
    requires |placements| == |StepOf(holdings, stops, s, placements).plan.toPlace|
    requires forall p | p in placements :: p.id != ""
    requires i < |holdings| && HoldingPlan(holdings[i], s).Wanted?
    ensures var h, x := holdings[i], StepOf(holdings, stops, s, placements);
            Covers(x.stops, AfterStep(x), h.symbol, h.qty - h.foreign, HoldingPlan(h, s).legs)
  {
    HoldingsAreStep(holdings, stops, s, placements, i);
    HoldingLegs(holdings[i], s);
    StepCovers(StepOf(holdings, stops, s, placements), holdings[i].symbol, holdings[i].qty - holdings[i].foreign,
               HoldingPlan(holdings[i], s).legs);
  }

  ghost predicate CoversHolding(x: Step, h: Holding, s: Settings)
    requires |x.placements| == |x.plan.toPlace|
  {
    && h.foreign <= h.qty && HoldingPlan(h, s).Wanted?
    && Covers(x.stops, AfterStep(x), h.symbol, h.qty - h.foreign, HoldingPlan(h, s).legs)
  }

  /** Coverage of every protectable position after the plan, for any holdings and own stops. */
  lemma CoverageAfterPlan(holdings: seq<Holding>, stops: seq<Listed>, s: Settings, placements: seq<Placement>, i: nat)
    requires !NewSession(s) && DistinctHoldings(holdings) && DistinctIds(stops) && AllOwn(stops) && Binds(holdings, stops)
    requires |placements| == |StepOf(holdings, stops, s, placements).plan.toPlace|
    requires forall p | p in placements :: p.id != ""
    requires i < |holdings| && Protectable(holdings[i], s)
    ensures CoversHolding(StepOf(holdings, stops, s, placements), holdings[i], s)
  {
    assert holdings[i].foreign <= holdings[i].qty;
    HoldingIsWantedExactly(holdings[i], s);
    WantedIsCovered(holdings, stops, s, placements, i);
  }

  // ----- What is listed after the plan -----

  /** A stop on the whole shares until cancelled, or on the rest of a share for the day. */
  predicate ProtectsWhole(v: Listed, h: Holding, s: Settings) {
    var whole := (h.qty - h.foreign) / 1_000_000_000 * 1_000_000_000;
    whole > 0 && Stops(v, h.symbol, Gtc, whole, Threshold(h.avgEntry, s.stopLossPct))
  }

  predicate ProtectsRest(v: Listed, h: Holding, s: Settings) {
    var rest := (h.qty - h.foreign) % 1_000_000_000;
    rest >= 1_000_000 && Stops(v, h.symbol, Day, rest, Threshold(h.avgEntry, s.stopLossPct))
  }

  lemma LegOfHolding(h: Holding, s: Settings, w: StopOrder, v: Listed)
    requires h.foreign <= h.qty && Protectable(h, s) && HoldingPlan(h, s).Wanted? && w in HoldingPlan(h, s).legs && Matches(v, w)
    ensures if w.leg.Whole? then ProtectsWhole(v, h, s) else ProtectsRest(v, h, s)
  {
    LegsOfHolding(h, s);
    MatchingMeans(v, h, s, w.qty, w.leg);
  }

  /** The holding has the stops it should have among those listed, and no other. */
  ghost predicate Stopped(after: seq<Listed>, h: Holding, s: Settings) {
    && (h.qty - h.foreign >= 1_000_000_000 ==> exists v | v in after :: ProtectsWhole(v, h, s))
    && ((h.qty - h.foreign) % 1_000_000_000 >= 1_000_000 ==> exists v | v in after :: ProtectsRest(v, h, s))
    && (forall v | v in after && v.symbol == h.symbol :: ProtectsWhole(v, h, s) || ProtectsRest(v, h, s))
  }

  lemma StepStops(x: Step, h: Holding, s: Settings, legs: seq<StopOrder>)
    requires h.foreign <= h.qty && Protectable(h, s) && HoldingPlan(h, s) == Wanted(h.symbol, legs) && IsStep(x) && x.settings == s
    requires LegsOf(h.symbol, legs) && AllLegsOf(x, h.symbol, legs)
    ensures Stopped(AfterStep(x), h, s)
  {
    AppliedIsReconciled(x.wanted, x.held, x.plan, s, x.stops, x.placements);
    forall w | w in legs
      ensures exists v | v in AfterStep(x) :: if w.leg.Whole? then ProtectsWhole(v, h, s) else ProtectsRest(v, h, s) {
      var v :| v in AfterStep(x) && Matches(v, w);
      LegOfHolding(h, s, w, v);
    }
    BothLegs(h, s);
    forall v | v in AfterStep(x) && v.symbol == h.symbol ensures ProtectsWhole(v, h, s) || ProtectsRest(v, h, s) {
      EveryStopIsWanted(x, h.symbol, legs, v);
      var w :| w in legs && Matches(v, w);
      LegOfHolding(h, s, w, v);
    }
  }

  /**
   After the plan a protectable holding has a stop that cannot be outlived on its whole shares, if it
   has any, a day stop on the rest of a share, if the broker takes it, both at the threshold to the
   cent, and no other stop. The threshold, the shares and the kinds are those of the holding itself.
   */
  lemma ProtectableIsStopped(holdings: seq<Holding>, stops: seq<Listed>, s: Settings, placements: seq<Placement>, i: nat)
    requires !NewSession(s) && DistinctHoldings(holdings) && DistinctIds(stops) && AllOwn(stops) && Binds(holdings, stops)
    requires |placements| == |StepOf(holdings, stops, s, placements).plan.toPlace|
    requires forall p | p in placements :: p.id != ""
    requires i < |holdings| && Protectable(holdings[i], s)
    ensures Stopped(AfterStep(StepOf(holdings, stops, s, placements)), holdings[i], s)
  {
    var h := holdings[i];
    HoldingIsWantedExactly(h, s);
    HoldingsAreStep(holdings, stops, s, placements, i);
    HoldingLegs(h, s);
    StepStops(StepOf(holdings, stops, s, placements), h, s, HoldingPlan(h, s).legs);
  }

  lemma BothLegs(h: Holding, s: Settings)
    requires h.foreign <= h.qty && Protectable(h, s) && HoldingPlan(h, s).Wanted?
    ensures h.qty - h.foreign >= 1_000_000_000 ==> exists w | w in HoldingPlan(h, s).legs :: w.leg.Whole?
    ensures (h.qty - h.foreign) % 1_000_000_000 >= 1_000_000 ==> exists w | w in HoldingPlan(h, s).legs :: w.leg.Fraction?
  {
    var q, price := h.qty - h.foreign, StopPrice(h.avgEntry, s.stopLossPct);
    LegsOfHolding(h, s);
    var whole, rest := Build(h.symbol, q / 1_000_000_000 * 1_000_000_000, price, Whole, s), Build(h.symbol, q % 1_000_000_000, price, Fraction, s);
    if q >= 1_000_000_000 {
      assert whole in HoldingPlan(h, s).legs;
    }
    if q % 1_000_000_000 >= 1_000_000 {
      assert rest in HoldingPlan(h, s).legs;
    }
  }

  lemma {:induction false} HeldComesFrom(plans: seq<PositionPlan>, symbol: string)
    ensures symbol in HeldSymbols(plans) <==> exists i | 0 <= i < |plans| :: !plans[i].Skipped? && plans[i].symbol == symbol
    decreases |plans|
  {
    var n := |plans|;
    if n > 0 {
      HeldComesFrom(plans[..n - 1], symbol);
      assert forall i | 0 <= i < n - 1 :: plans[i] == plans[..n - 1][i];
    }
  }

  lemma HeldIsReported(positions: seq<Position>, stops: seq<Listed>, s: Settings, symbol: string)
    ensures symbol in HeldSymbols(Plans(positions, stops, s)) <==>
            symbol != "" && exists i | 0 <= i < |positions| :: positions[i].symbol == symbol
  {
    var plans := Plans(positions, stops, s);
    HeldComesFrom(plans, symbol);
    forall i | 0 <= i < |positions|
      ensures !plans[i].Skipped? && plans[i].symbol == symbol <==> symbol != "" && positions[i].symbol == symbol {
      NamedAsPosition(positions[i], stops, s);
    }
  }

  lemma NamedAsPosition(pos: Position, stops: seq<Listed>, s: Settings)
    ensures var plan := PlanPosition(pos, stops, s);
            (plan.Skipped? <==> pos.symbol == "") && (!plan.Skipped? ==> plan.symbol == pos.symbol)
  {
    QuantityIsPlannedExactly(pos.symbol, ProtectedQty(pos, stops), pos.avgEntry, s);
  }

  /** For any positions and stops: a stop whose symbol no position carries is cancelled. */
  lemma StopWithoutPositionIsCancelled(positions: seq<Position>, stops: seq<Listed>, s: Settings, v: Listed)
    requires v in stops && v.id != "" && forall p | p in positions :: p.symbol != v.symbol
    ensures v.id in PlanFor(positions, stops, s).toCancel
  {
    var plans := Plans(positions, stops, s);
    HeldIsReported(positions, stops, s, v.symbol);
    ObsoleteIn(stops, HeldSymbols(plans), AllWanted(plans), v.id);
  }

  /** A stop on a position that cannot be given a new one stays. */
  lemma UnreplacedStopIsKept(positions: seq<Position>, stops: seq<Listed>, s: Settings, v: Listed, i: nat)
    requires DistinctIds(stops) && v in stops && i < |positions| && positions[i].symbol == v.symbol != ""
    requires forall p | p in positions && p.symbol == v.symbol :: exists reason :: Lacks(p, ProtectedQty(p, stops), s, reason)
    ensures v.id !in PlanFor(positions, stops, s).toCancel
  {
    var plans := Plans(positions, stops, s);
    HeldIsReported(positions, stops, s, v.symbol);
    forall w | w in AllWanted(plans) ensures w.symbol != v.symbol {
      var j := WantedComesFromPlan(plans, w);
      LegsNameTheirPosition(positions[j], stops, s, w);
      if positions[j].symbol == v.symbol {
        assert positions[j] in positions;
        var reason :| Lacks(positions[j], ProtectedQty(positions[j], stops), s, reason);
        LacksExactly(positions[j], stops, s, v.symbol, reason);
      }
    }
    if v.id in PlanFor(positions, stops, s).toCancel {
      CancelledIsObsolete(stops, HeldSymbols(plans), AllWanted(plans), v);
    }
  }

  // ----- Both sides of the condition occur -----

  const HALF := 500_000_000

  function TwinKey(): string {
    "stop-0-stop-A-day"
  }

  function TwinStop(id: string, s: Settings): Listed {
    Listed(id, "A", HALF, StopPrice(100.0, s.stopLossPct), Day, TwinKey())
  }

  function TwinStops(s: Settings): seq<Listed> {
    [TwinStop("a", s), TwinStop("b", s)]
  }

  function TwinHolding(): Holding {
    Holding("A", 10 * SHARE + HALF, 0, 100.0)
  }

  lemma TwinKeyIsOwn()
    ensures IsOwnKey(TwinKey())
  {
    var key := TwinKey();
    var rest := key[5..];
    assert "stop-" <= key;
    assert rest == "0" + "-stop-A-day";
    Idempotency.SpanOfPrefix("0", "-stop-A-day", Idempotency.IsDigit);
    assert key[6..] == "-stop-" + "A-day";
  }

  lemma TwoBound(symbol: string, a: Listed, b: Listed)
    requires a.symbol == symbol && b.symbol == symbol && a.qty >= 0 && b.qty >= 0
    ensures Bound(symbol, [a, b]) == a.qty + b.qty
  {
    assert [a, b][1..] == [b] && [b][1..] == [];
    assert Bound(symbol, [b]) == b.qty + Bound(symbol, [b][1..]);
  }

  lemma TwoOwnDistinct(a: Listed, b: Listed)
    requires IsOwnKey(a.key) && IsOwnKey(b.key) && a.id != b.id && a.id != "" && b.id != ""
    ensures AllOwn([a, b]) && DistinctIds([a, b])
  {
  }

  lemma TwinStopsBind(s: Settings)
    ensures Binds([TwinHolding()], TwinStops(s)) && AllOwn(TwinStops(s)) && DistinctIds(TwinStops(s))
    ensures Bound("A", TwinStops(s)) == 2 * HALF
  {
    TwinKeyIsOwn();
    TwoBound("A", TwinStop("a", s), TwinStop("b", s));
    TwoOwnDistinct(TwinStop("a", s), TwinStop("b", s));
  }

  lemma CountOfTwo(a: Listed, b: Listed, w: StopOrder)
    requires Matches(a, w) && Matches(b, w)
    ensures Count([a, b], w) == 2
  {
    assert [a, b][1..] == [b] && [b][1..] == [];
    assert Count([b], w) == 1 + Count([b][1..], w);
  }

  lemma TwinLegs(s: Settings)
    requires StopPrice(100.0, s.stopLossPct) > 0.0
    ensures HoldingPlan(TwinHolding(), s).Wanted? && |HoldingPlan(TwinHolding(), s).legs| == 2
    ensures exists w | w in HoldingPlan(TwinHolding(), s).legs :: Count(TwinStops(s), w) == 2
  {
    var fraction := Build("A", HALF, StopPrice(100.0, s.stopLossPct), Fraction, s);
    PlanOfSharesAndRest("A", 10, HALF, 100.0, s);
    CountOfTwo(TwinStop("a", s), TwinStop("b", s), fraction);
    assert fraction in HoldingPlan(TwinHolding(), s).legs;
  }

  /**
   Ten and a half shares with two listed own day stops on the fraction: the broker's binding holds,
   nothing is cancelled, and once the whole-share stop is placed eleven shares are bound.
   */
  lemma TwinStopsOversell(s: Settings, placements: seq<Placement>)
    requires !NewSession(s) && StopPrice(100.0, s.stopLossPct) > 0.0
    requires |placements| == |StepOf([TwinHolding()], TwinStops(s), s, placements).plan.toPlace|
    requires forall p | p in placements :: p.id != ""
    ensures Binds([TwinHolding()], TwinStops(s)) && AllOwn(TwinStops(s)) && DistinctIds(TwinStops(s))
    ensures Bound("A", AfterStep(StepOf([TwinHolding()], TwinStops(s), s, placements))) > TwinHolding().qty + 2 * EPSILON
  {
    TwinStopsBind(s);
    TwinLegs(s);
    WantedIsCovered([TwinHolding()], TwinStops(s), s, placements, 0);
    TwiceMatchedOversells(TwinStops(s), AfterStep(StepOf([TwinHolding()], TwinStops(s), s, placements)), "A", TwinHolding().qty,
                          HoldingPlan(TwinHolding(), s).legs);
  }

  lemma TwiceMatchedOversells(stops: seq<Listed>, after: seq<Listed>, symbol: string, qty: nat, legs: seq<StopOrder>)
    requires Covers(stops, after, symbol, qty, legs) && |legs| == 2 && exists w | w in legs :: Count(stops, w) == 2
    ensures Bound(symbol, after) > qty + 2 * EPSILON
  {
  }
}
