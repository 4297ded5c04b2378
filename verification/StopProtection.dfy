/**
 Which positions get a stop and why the others do not (core/broker_stops.py), on the fields of the
 holding alone: 1_000_000 units are the thousandth of a share below which the broker takes no order,
 a stop price under half a cent rounds to zero.
 */
module StopProtection {
  import opened Options
  import opened BrokerStops
  import opened StopReconciliation
  import Idempotency

  lemma RoundsToPositiveExactly(y: real)
    ensures RoundHalfEven(y) > 0 <==> y > 0.5
  {
    var h := y.Floor;
    assert h as real <= y < h as real + 1.0;
    if h == 0 {
      assert h as real == 0.0 && h % 2 == 0;
    } else if h < 0 {
      assert h as real <= -1.0;
    } else {
      assert h as real >= 1.0;
    }
  }

  lemma RoundCentsIsPositiveExactly(x: real)
    ensures RoundCents(x) > 0.0 <==> x > 0.005
  {
    RoundsToPositiveExactly(x * 100.0);
    assert x > 0.005 <==> x * 100.0 > 0.5;
    var n := RoundHalfEven(x * 100.0);
    assert RoundCents(x) == n as real / 100.0;
    assert n > 0 <==> n as real > 0.0;
  }

  lemma PositivePriceExactly(avgEntry: real, s: Settings)
    ensures StopPrice(avgEntry, s.stopLossPct) > 0.0 <==> Threshold(avgEntry, s.stopLossPct) > 0.005
  {
    RoundCentsIsPositiveExactly(Threshold(avgEntry, s.stopLossPct));
  }

  /** A holding that can be given a stop: a name, an entry price, enough shares of its own, a price above zero. */
  predicate Protectable(h: Holding, s: Settings) {
    h.symbol != "" && h.avgEntry > 0.0 && h.qty - h.foreign >= 1_000_000 && Threshold(h.avgEntry, s.stopLossPct) > 0.005
  }

  lemma SomeLeg(symbol: string, qty: nat, price: real, s: Settings)
    ensures LegsFor(symbol, qty, price, s) != [] <==> qty >= 1_000_000
  {
  }

  /** What becomes of a position whose protected quantity is `qty`: wanted, or the first thing that is missing. */
  lemma QuantityIsPlannedExactly(symbol: string, qty: nat, avgEntry: real, s: Settings)
    ensures var plan := PlanQuantity(symbol, qty, avgEntry, s);
            && (plan.Wanted? <==> avgEntry > 0.0 && qty >= 1_000_000 && Threshold(avgEntry, s.stopLossPct) > 0.005)
            && (plan == Unprotected(symbol, NoEntryPrice) <==> avgEntry <= 0.0)
            && (plan == Unprotected(symbol, BelowMinimum) <==> avgEntry > 0.0 && qty < 1_000_000)
            && (plan == Unprotected(symbol, PriceNotPositive) <==>
                  avgEntry > 0.0 && qty >= 1_000_000 && Threshold(avgEntry, s.stopLossPct) <= 0.005)
            && plan != Unprotected(symbol, NoLeg) && !plan.Skipped?
  {
    PositivePriceExactly(avgEntry, s);
    SomeLeg(symbol, qty, StopPrice(avgEntry, s.stopLossPct), s);
  }

  /** A holding is given stops if and only if it is protectable; the plan wants them under its symbol. */
  lemma HoldingIsWantedExactly(h: Holding, s: Settings)
    requires h.foreign <= h.qty
    ensures HoldingPlan(h, s).Wanted? <==> Protectable(h, s)
    ensures HoldingPlan(h, s).Skipped? <==> h.symbol == ""
  {
    QuantityIsPlannedExactly(h.symbol, h.qty - h.foreign, h.avgEntry, s);
  }

  // ----- What the plan reports -----

  lemma {:induction false} UnprotectedComesFrom(plans: seq<PositionPlan>, x: (string, Reason))
    ensures x in AllUnprotected(plans) <==> exists i | 0 <= i < |plans| :: plans[i] == Unprotected(x.0, x.1)
    decreases |plans|
  {
    var n := |plans|;
    if n > 0 {
      UnprotectedComesFrom(plans[..n - 1], x);
      assert forall i | 0 <= i < n - 1 :: plans[i] == plans[..n - 1][i];
    }
  }

  /** The broker's quantity of a position that is reported without an available quantity, or with it. */
  lemma ProtectedQtyExactly(pos: Position, stops: seq<Listed>)
    ensures pos.available == None ==> ProtectedQty(pos, stops) == Abs(pos.qty)
    ensures pos.available != None && pos.qty == 0 ==>
              ProtectedQty(pos, stops) == Abs(pos.available.value) + OwnBound(pos.symbol, stops)
    ensures pos.available != None && pos.qty != 0 ==>
              && ProtectedQty(pos, stops) <= Abs(pos.qty)
              && (Abs(pos.available.value) + OwnBound(pos.symbol, stops) <= Abs(pos.qty) ==>
                    ProtectedQty(pos, stops) == Abs(pos.available.value) + OwnBound(pos.symbol, stops))
  {
  }

  /** The first of the three things that a position lacks, if it lacks one. */
  ghost predicate Lacks(pos: Position, qty: nat, s: Settings, reason: Reason) {
    && pos.symbol != ""
    && match reason
       case NoEntryPrice => pos.avgEntry <= 0.0
       case BelowMinimum => pos.avgEntry > 0.0 && qty < 1_000_000
       case PriceNotPositive => pos.avgEntry > 0.0 && qty >= 1_000_000 && Threshold(pos.avgEntry, s.stopLossPct) <= 0.005
       case NoLeg => false
  }

  /** The plan reports exactly the positions that cannot be given a stop, each with what it lacks. */
  lemma UnprotectedExactly(positions: seq<Position>, stops: seq<Listed>, s: Settings, symbol: string, reason: Reason)
    ensures (symbol, reason) in PlanFor(positions, stops, s).unprotected <==>
            exists i | 0 <= i < |positions| ::
              positions[i].symbol == symbol && Lacks(positions[i], ProtectedQty(positions[i], stops), s, reason)
  {
    var plans := Plans(positions, stops, s);
    UnprotectedComesFrom(plans, (symbol, reason));
    forall i | 0 <= i < |positions|
      ensures plans[i] == Unprotected(symbol, reason) <==>
              positions[i].symbol == symbol && Lacks(positions[i], ProtectedQty(positions[i], stops), s, reason)
    {
      LacksExactly(positions[i], stops, s, symbol, reason);
    }
  }

  lemma LacksExactly(pos: Position, stops: seq<Listed>, s: Settings, symbol: string, reason: Reason)
    ensures PlanPosition(pos, stops, s) == Unprotected(symbol, reason) <==>
            pos.symbol == symbol && Lacks(pos, ProtectedQty(pos, stops), s, reason)
  {
    QuantityIsPlannedExactly(pos.symbol, ProtectedQty(pos, stops), pos.avgEntry, s);
  }

  // ----- What the stops look like -----

  /** A stop of this kind on this many shares, within the tolerances of the comparison and of the cents. */
  predicate Stops(v: Listed, symbol: string, tif: TimeInForce, qty: int, threshold: real) {
    && v.symbol == symbol && v.tif == tif
    && qty - 1_000 <= v.qty <= qty + 1_000
    && threshold - 0.01 <= v.stopPrice <= threshold + 0.01
  }

  /** The whole shares are stopped until cancelled, the rest of a share for the day. */
  lemma LegsOfHolding(h: Holding, s: Settings)
    requires h.foreign <= h.qty && Protectable(h, s)
    ensures var q := h.qty - h.foreign;
            var whole, rest, price := q / 1_000_000_000 * 1_000_000_000, q % 1_000_000_000, StopPrice(h.avgEntry, s.stopLossPct);
            HoldingPlan(h, s) == Wanted(h.symbol,
              (if whole > 0 then [Build(h.symbol, whole, price, Whole, s)] else [])
              + (if rest >= 1_000_000 then [Build(h.symbol, rest, price, Fraction, s)] else []))
  {
    HoldingIsWantedExactly(h, s);
    SplitExactly(h.qty - h.foreign);
  }

  lemma SplitExactly(q: nat)
    ensures q - q / SHARE * SHARE == q % SHARE && (q / SHARE * SHARE >= SHARE <==> q / SHARE * SHARE > 0)
  {
  }

  lemma MatchingMeans(v: Listed, h: Holding, s: Settings, qty: int, leg: Leg)
    requires Matches(v, Build(h.symbol, qty, StopPrice(h.avgEntry, s.stopLossPct), leg, s))
    ensures Stops(v, h.symbol, if leg.Whole? then Gtc else Day, qty, Threshold(h.avgEntry, s.stopLossPct))
  {
    StopPriceIsNearThreshold(h.avgEntry, s.stopLossPct);
    NearerStill(v.stopPrice, StopPrice(h.avgEntry, s.stopLossPct), Threshold(h.avgEntry, s.stopLossPct));
  }

  lemma NearerStill(a: real, b: real, c: real)
    requires AbsReal(a - b) <= 0.005 && c - 0.005 <= b <= c + 0.005
    ensures c - 0.01 <= a <= c + 0.01
  {
  }

  /** A stop of the leg's symbol and kind, within a thousandth of a unit of quantity and half a cent, is left alone. */
  lemma NearStopIsKept(positions: seq<Position>, stops: seq<Listed>, s: Settings, v: Listed, w: StopOrder)
    requires DistinctIds(stops) && v in stops && w in AllWanted(Plans(positions, stops, s))
    requires v.symbol == w.symbol && v.tif == (if w.leg.Whole? then Gtc else Day)
    requires w.qty - 1_000 <= v.qty <= w.qty + 1_000 && w.stopPrice - 0.005 <= v.stopPrice <= w.stopPrice + 0.005
    ensures v.id !in PlanFor(positions, stops, s).toCancel
    ensures w.leg.Whole? || !NewSession(s) ==> w !in PlanFor(positions, stops, s).toPlace
  {
    assert Matches(v, w);
    MatchingStopIsKept(positions, stops, s, v, w);
    MissingIn(AllWanted(Plans(positions, stops, s)), Counting(stops, s), w);
    if NewSession(s) && w.leg.Whole? {
      OtherStopsCount(stops, v);
    }
  }

  lemma {:induction false} OtherStopsCount(stops: seq<Listed>, v: Listed)
    requires v in stops && !v.tif.Day?
    ensures v in WithoutDay(stops)
  {
    if v != stops[0] {
      OtherStopsCount(stops[1..], v);
    }
  }

  // ----- What the keys name -----

  function NumberedKey(digits: string, rest: string): string {
    "stop-" + digits + "-stop-" + rest
  }

  predicate IsNumber(digits: string) {
    digits != "" && forall c | c in digits :: '0' <= c <= '9'
  }

  /** A stop is the planner's own exactly when its key is "stop-", at least one digit, "-stop-" and anything. */
  lemma OwnKeyExactly(key: string)
    ensures IsOwnKey(key) <==> exists digits, rest :: IsNumber(digits) && key == NumberedKey(digits, rest)
  {
    if IsOwnKey(key) {
      var digits, rest := OwnKeyParts(key);
    }
    forall digits, rest | IsNumber(digits) && key == NumberedKey(digits, rest) ensures IsOwnKey(key) {
      NumberedKeyIsOwn(digits, rest);
    }
  }

  lemma SplitBehind(s: string, head: string)
    requires head <= s
    ensures s == head + s[|head|..]
  {
  }

  lemma OwnKeyParts(key: string) returns (digits: string, rest: string)
    requires IsOwnKey(key)
    ensures IsNumber(digits) && key == NumberedKey(digits, rest)
  {
    var behind := key[5..];
    var j := Idempotency.Span(behind, Idempotency.IsDigit);
    digits := behind[..j];
    rest := behind[j..][6..];
    SplitBehind(key, "stop-");
    SplitBehind(behind, digits);
    assert behind[j..] == key[5 + j..];
    SplitBehind(behind[j..], "-stop-");
    Joined("stop-", digits, "-stop-", rest);
  }

  lemma Joined(a: string, b: string, c: string, d: string)
    ensures a + (b + (c + d)) == a + b + c + d
  {
  }

  lemma NumberedKeyIsOwn(digits: string, rest: string)
    requires IsNumber(digits)
    ensures IsOwnKey(NumberedKey(digits, rest))
  {
    var key := NumberedKey(digits, rest);
    assert key[5..] == digits + ("-stop-" + rest);
    Idempotency.SpanOfPrefix(digits, "-stop-" + rest, Idempotency.IsDigit);
    assert key[5 + |digits|..] == "-stop-" + rest;
  }

  /** The stop on whole shares keeps its key over sessions and restarts. */
  lemma WholeKeyOutlivesSessions(symbol: string, qty: int, price: real, a: Settings, b: Settings)
    requires a.digest == b.digest
    ensures Build(symbol, qty, price, Whole, a).decision == "stop-" + symbol
    ensures Build(symbol, qty, price, Whole, a).key == Build(symbol, qty, price, Whole, b).key
  {
  }

  /** The stop on the rest of a share gets another key each session, unless the digest collides. */
  lemma DayKeyNamesItsSession(symbol: string, qty: int, price: real, a: Settings, b: Settings, today: string, tomorrow: string)
    requires a.digest == b.digest && Idempotency.IsDigest(a.digest)
    requires a.session == Some(today) && b.session == Some(tomorrow) && today != tomorrow
    ensures var x, y := Build(symbol, qty, price, Fraction, a), Build(symbol, qty, price, Fraction, b);
            && x.decision == "stop-" + symbol + "-" + today
            && (x.key == y.key ==> x.decision != y.decision && a.digest(x.decision) == a.digest(y.decision))
  {
    var head := "stop-" + symbol + "-";
    assert (head + today)[|head|..] == today && (head + tomorrow)[|head|..] == tomorrow;
    Idempotency.KeysCoincideExactly(a.digest, head + today, "stop", 0, head + tomorrow, "stop", 0);
  }
}
