/**
 The daily trade budget of the compliance guardian (core/compliance.py): a counter in memory, its
 durable copy per trading day, the cap check, and the refund the engine asks for when the broker
 refuses an order (core/engine/absendung_abgang.py).
 */
module DailyTrades {
  import opened Options

  const QTY_EPS := 0.000001

  datatype Source = Ai | HumanApproved

  /** `held` and `quantity` are None where the order lacks them or they are not numbers. */
  datatype Order = Order(side: string, exitKind: string, held: Option<real>, quantity: Option<real>)

  datatype Rules = Rules(cap: nat, exemptExits: bool)

  /** The counter, and the durable values by trading day; None without a durable store. */
  datatype Guardian = Guardian(trades: int, store: Option<map<string, int>>)

  predicate IsRiskReducingExit(o: Order) {
    && o.side == "sell" && o.exitKind !in {"rotation", "trim"}
    && o.held.Some? && o.held.value > 0.0
    && o.quantity.Some? && o.quantity.value <= o.held.value + QTY_EPS
  }

  predicate Exempt(rules: Rules, o: Order) {
    rules.exemptExits && IsRiskReducingExit(o)
  }

  /** `check_trade`. */
  predicate Passes(rules: Rules, g: Guardian, o: Order, source: Source) {
    source.HumanApproved? || Exempt(rules, o) || g.trades < rules.cap
  }

  function Durable(g: Guardian, day: string): int {
    if g.store.Some? && day in g.store.value then g.store.value[day] else 0
  }

  function Booked(g: Guardian, day: string, amount: int): Guardian {
    if g.store.None? then g else g.(store := Some(g.store.value[day := Durable(g, day) + amount]))
  }

  function Recorded(rules: Rules, g: Guardian, o: Order, day: string): Guardian {
    if Exempt(rules, o) then g else Booked(g.(trades := g.trades + 1), day, 1)
  }

  function Refunded(g: Guardian, day: string): Guardian {
    if g.trades > 0 then Booked(g.(trades := g.trades - 1), day, -1) else g
  }

  /** Without a store the day starts at 0; an unreadable store counts as spent. */
  function BudgetOfToday(rules: Rules, g: Guardian, day: string, readable: bool): int {
    if g.store.None? then 0
    else if !readable then rules.cap
    else if Durable(g, day) < 0 then 0 else Durable(g, day)
  }

  /** `reset_daily_limit`; a restarted process does the same when it starts. */
  function Reset(rules: Rules, g: Guardian, day: string, readable: bool): Guardian {
    g.(trades := BudgetOfToday(rules, g, day, readable))
  }

  lemma UnreadableMeansSpent(rules: Rules, g: Guardian, day: string, o: Order)
    requires g.store.Some?
    ensures Passes(rules, Reset(rules, g, day, false), o, Ai) <==> Exempt(rules, o)
  {
  }

  // ----- One trading day -----

  /** `Refuse(k)`: the broker refuses the order submitted in event `k`. */
  datatype Event = Submit(order: Order, source: Source) | Refuse(k: nat) | Restart

  /** Only an autonomous order that was submitted is refused, and only once. */
  ghost predicate Enabled(rules: Rules, states: seq<Guardian>, events: seq<Event>, i: nat)
    requires i < |events| && |events| < |states|
  {
    events[i].Refuse? ==>
      && events[i].k < i && Submitted(rules, states, events, events[i].k)
      && events[events[i].k].source.Ai? && !RefusedBy(events, events[i].k, i)
  }

  ghost predicate Submitted(rules: Rules, states: seq<Guardian>, events: seq<Event>, k: nat)
    requires k < |events| && |events| < |states|
  {
    events[k].Submit? && Passes(rules, states[k], events[k].order, events[k].source)
  }

  ghost predicate RefusedBy(events: seq<Event>, k: nat, i: nat)
    requires i <= |events|
  {
    exists j | 0 <= j < i :: events[j] == Refuse(k)
  }

  /** A human-approved order passes without being recorded; a refusal refunds whatever was refused. */
  function Next(rules: Rules, g: Guardian, e: Event, day: string): Guardian {
    match e
    case Submit(o, source) => if source.Ai? && Passes(rules, g, o, source) then Recorded(rules, g, o, day) else g
    case Refuse(_) => Refunded(g, day)
    case Restart => Reset(rules, g, day, true)
  }

  /** A day with a working store that starts with nothing spent. */
  ghost predicate IsDay(rules: Rules, states: seq<Guardian>, events: seq<Event>, day: string) {
    && |states| == |events| + 1
    && states[0].trades == 0 && states[0].store.Some? && Durable(states[0], day) == 0
    && forall i | 0 <= i < |events| ::
         Enabled(rules, states, events, i) && states[i + 1] == Next(rules, states[i], events[i], day)
  }

  /** The durable value is the counter, so a restart or another reset that day changes nothing. */
  lemma {:induction false} RestartChangesNothing(rules: Rules, states: seq<Guardian>, events: seq<Event>, day: string, i: nat)
    requires IsDay(rules, states, events, day) && i <= |events|
    ensures states[i].store.Some? && Durable(states[i], day) == states[i].trades && states[i].trades >= 0
    ensures Reset(rules, states[i], day, true) == states[i]
    decreases i
  {
    if i > 0 {
      RestartChangesNothing(rules, states, events, day, i - 1);
    }
  }

  // ----- One order of the day -----

  /** A sell of at most the held quantity, up to a millionth of a share, that is no rotation and no trim. */
  predicate ReducesHolding(o: Order) {
    && o.side == "sell" && o.exitKind != "rotation" && o.exitKind != "trim"
    && o.held != None && o.quantity != None
    && 0.0 < o.held.value && o.quantity.value - o.held.value <= 0.000001
  }

  /**
   An order passes exactly when a human approved it, the switch exempts it as a reduction of what is
   held, or the counter is below the cap. One that passes on its own and is not exempt takes one slot,
   in memory and in the store; any other takes none.
   */
  lemma OneOrderOfTheDay(rules: Rules, states: seq<Guardian>, events: seq<Event>, day: string, i: nat, o: Order, source: Source)
    requires IsDay(rules, states, events, day) && i < |events| && events[i] == Submit(o, source)
    ensures var exempt, g, next := rules.exemptExits && ReducesHolding(o), states[i], states[i + 1];
            && (Passes(rules, g, o, source) <==> source == HumanApproved || exempt || g.trades < rules.cap)
            && next.trades == g.trades + (if source == Ai && !exempt && g.trades < rules.cap then 1 else 0)
            && Durable(next, day) == next.trades
  {
    RestartChangesNothing(rules, states, events, day, i + 1);
  }

  /** A refused order gives one slot back, if any is taken. */
  lemma OneRefusalOfTheDay(rules: Rules, states: seq<Guardian>, events: seq<Event>, day: string, i: nat)
    requires IsDay(rules, states, events, day) && i < |events| && events[i].Refuse?
    ensures states[i + 1].trades == (if states[i].trades > 0 then states[i].trades - 1 else 0)
    ensures Durable(states[i + 1], day) == states[i + 1].trades
  {
    RestartChangesNothing(rules, states, events, day, i);
    RestartChangesNothing(rules, states, events, day, i + 1);
  }

  // ----- The cap -----

  /** Orders that count against the cap and were not refused by event `i`. */
  ghost function InForce(rules: Rules, states: seq<Guardian>, events: seq<Event>, i: nat): set<nat>
    requires i <= |events| < |states|
  {
    set k: nat | k < i && Charged(rules, states, events, k) && !RefusedBy(events, k, i)
  }

  ghost predicate Charged(rules: Rules, states: seq<Guardian>, events: seq<Event>, k: nat)
    requires k < |events| < |states|
  {
    Submitted(rules, states, events, k) && events[k].source.Ai? && !Exempt(rules, events[k].order)
  }

  ghost predicate IsRefund(rules: Rules, states: seq<Guardian>, events: seq<Event>, j: nat, charged: bool)
    requires j < |events| < |states|
  {
    events[j].Refuse? && events[j].k < |events| && (Charged(rules, states, events, events[j].k) <==> charged)
  }

  /** Refunds of orders that were never charged, taken from a positive counter. */
  ghost function StrayRefunds(rules: Rules, states: seq<Guardian>, events: seq<Event>, i: nat): nat
    requires i <= |events| < |states|
  {
    if i == 0 then 0
    else
      StrayRefunds(rules, states, events, i - 1) +
      if IsRefund(rules, states, events, i - 1, false) && states[i - 1].trades > 0 then 1 else 0
  }

  /** Refunds of charged orders that find the counter at 0 and are lost. */
  ghost function LostRefunds(rules: Rules, states: seq<Guardian>, events: seq<Event>, i: nat): nat
    requires i <= |events| < |states|
  {
    if i == 0 then 0
    else
      LostRefunds(rules, states, events, i - 1) +
      if IsRefund(rules, states, events, i - 1, true) && states[i - 1].trades <= 0 then 1 else 0
  }

  lemma RefusedStep(events: seq<Event>, k: nat, i: nat)
    requires 0 < i <= |events|
    ensures RefusedBy(events, k, i) <==> RefusedBy(events, k, i - 1) || events[i - 1] == Refuse(k)
  {
  }

  lemma InForceStep(rules: Rules, states: seq<Guardian>, events: seq<Event>, i: nat)
    requires 0 < i <= |events| < |states| && forall j | 0 <= j < i :: Enabled(rules, states, events, j)
    ensures var before, after := InForce(rules, states, events, i - 1), InForce(rules, states, events, i);
            match events[i - 1]
            case Submit(_, _) => after == if Charged(rules, states, events, i - 1) then before + {i - 1} else before
            case Refuse(k) => k < |events| && after == before - {k} && (Charged(rules, states, events, k) ==> k in before)
            case Restart => after == before
    ensures i - 1 !in InForce(rules, states, events, i - 1)
  {
    var before, after := InForce(rules, states, events, i - 1), InForce(rules, states, events, i);
    forall k: nat | k < i ensures RefusedBy(events, k, i) <==> RefusedBy(events, k, i - 1) || events[i - 1] == Refuse(k) {
      RefusedStep(events, k, i);
    }
    forall j | 0 <= j < i - 1 ensures events[j] != Refuse(i - 1) {
      assert Enabled(rules, states, events, j);
    }
    assert Enabled(rules, states, events, i - 1);
  }

  lemma InForceSize(rules: Rules, states: seq<Guardian>, events: seq<Event>, i: nat)
    requires 0 < i <= |events| < |states| && forall j | 0 <= j < i :: Enabled(rules, states, events, j)
    ensures var before, after := |InForce(rules, states, events, i - 1)|, |InForce(rules, states, events, i)|;
            match events[i - 1]
            case Submit(_, _) => after == before + if Charged(rules, states, events, i - 1) then 1 else 0
            case Refuse(k) =>
              && k < |events|
              && after == before - (if Charged(rules, states, events, k) then 1 else 0)
            case Restart => after == before
  {
    InForceStep(rules, states, events, i);
    var before := InForce(rules, states, events, i - 1);
    if events[i - 1].Refuse? {
      var k := events[i - 1].k;
      if !Charged(rules, states, events, k) {
        assert before - {k} == before;
      }
    }
  }

  /**
   The cap: on a day of any length the counter stays within it, and the charged orders still in
   force are the counter, plus the stray refunds taken from it, less the refunds lost at 0. Without
   a stray refund no refund is lost and the counter is exact.
   */
  lemma {:induction false} OrdersInForceExactly(rules: Rules, states: seq<Guardian>, events: seq<Event>, day: string, i: nat)
    requires IsDay(rules, states, events, day) && i <= |events|
    ensures 0 <= states[i].trades <= rules.cap
    ensures var n := |InForce(rules, states, events, i)|;
            && n == states[i].trades + StrayRefunds(rules, states, events, i) - LostRefunds(rules, states, events, i)
            && states[i].trades <= n
    decreases i
  {
    if i > 0 {
      OrdersInForceExactly(rules, states, events, day, i - 1);
      RestartChangesNothing(rules, states, events, day, i - 1);
      InForceSize(rules, states, events, i);
    } else {
      assert InForce(rules, states, events, 0) == {};
    }
  }

  function StrayEvents(): seq<Event> {
    var buy, exit := Order("buy", "", None, Some(1.0)), Order("sell", "stop", Some(1.0), Some(1.0));
    [Submit(buy, Ai), Submit(exit, Ai), Refuse(1), Submit(buy, Ai)]
  }

  function DayState(day: string, trades: int): Guardian {
    Guardian(trades, Some(map[day := trades]))
  }

  /**
   The refund of a refused exit that was exempt opens a slot that nobody gave up: with a cap of one
   trade, two charged orders are in force.
   */
  lemma StrayRefundOverrunsCap(day: string) returns (states: seq<Guardian>)
    ensures IsDay(Rules(1, true), states, StrayEvents(), day)
    ensures |InForce(Rules(1, true), states, StrayEvents(), 4)| == 2
  {
    var rules, events := Rules(1, true), StrayEvents();
    states := [DayState(day, 0), DayState(day, 1), DayState(day, 1), DayState(day, 0), DayState(day, 1)];
    assert forall k | 0 <= k < 4 :: !RefusedBy(events, 0, k) && !RefusedBy(events, 3, k);
    assert events[2] == Refuse(1);
    forall a: int, b: int ensures map[day := a][day := b] == map[day := b] {
    }
    forall i | 0 <= i < 4
      ensures Enabled(rules, states, events, i) && states[i + 1] == Next(rules, states[i], events[i], day)
    {
    }
    assert Charged(rules, states, events, 0) && Charged(rules, states, events, 3);
    assert InForce(rules, states, events, 4) == {0, 3};
  }

  // ----- Over midnight -----

  /**
   A refund after midnight, before the daily reset, is booked on the new day: the reset hides the
   debt, and a restart after the first trade of the day forgets that trade.
   */
  lemma MidnightRefundLosesATrade(rules: Rules, g: Guardian, o: Order, day: string)
    requires g.store.Some? && g.trades > 0 && Durable(g, day) == 0 && !Exempt(rules, o)
    ensures var morning := Reset(rules, Refunded(g, day), day, true);
            var traded := Recorded(rules, morning, o, day);
            && morning.trades == 0 && traded.trades == 1
            && Reset(rules, traded, day, true).trades == 0
  {
  }

  /** In general a reset leaves counter and durable value equal exactly when nothing is owed. */
  lemma ResetAgreesExactly(rules: Rules, g: Guardian, day: string)
    requires g.store.Some?
    ensures var r := Reset(rules, g, day, true);
            (Durable(r, day) == r.trades <==> Durable(g, day) >= 0) && Reset(rules, r, day, true) == r
  {
  }
}
