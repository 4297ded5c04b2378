/**
 What the approval gate lets through, on the numbers of the order itself (core/hitl_gate.py): which
 quantity is measured, when an order executes on its own, and what is booked or queued then.
 */
module GateLimits {
  import opened Options
  import opened TtlMap
  import opened HitlGate
  import Q = HitlQueue

  predicate Numeric(r: Reading) {
    r == Missing || (r.Value? && r.n.Fin?)
  }

  function Number(r: Reading): real {
    if r.Value? && r.n.Fin? then r.n.v else 0.0
  }

  /** What the executor gives may also be no number at all: then it counts as nothing. */
  predicate NumericCall(c: Call) {
    && Numeric(c.signal.price) && Numeric(c.signal.position) && Numeric(c.signal.suggested)
    && (Numeric(c.calculated) || c.calculated == Unreadable)
  }

  function Magnitude(x: real): real {
    if x < 0.0 then -x else x
  }

  /** The executor's quantity times the price; without one the signal's own, and for a sell the position's. */
  function Worth(c: Call): real
    requires NumericCall(c)
  {
    var calculated, suggested, held := Number(c.calculated), Number(c.signal.suggested), Number(c.signal.position);
    var measured := if calculated != 0.0 then calculated
                    else if suggested != 0.0 then suggested
                    else if c.signal.action.Sell? then held
                    else 0.0;
    Magnitude(measured) * Number(c.signal.price)
  }

  /** The gate measures the quantity that will be submitted, before any other. */
  lemma GateMeasuresWorth(c: Call)
    requires NumericCall(c)
    ensures Readable(c.signal, c.calculated) && ValueOf(c) == Fin(Worth(c))
  {
  }

  /** A sell of a long position, where the switch exempts it. */
  predicate ExemptSell(c: Call)
    requires NumericCall(c)
  {
    c.policy.exemptSells && c.signal.action.Sell? && Number(c.signal.position) > 0.0
  }

  /** The unlimited mode and exempt sells execute whatever the value, the queue, the day and the store. */
  lemma ExemptOrdersExecute(st: State, c: Call)
    requires NumericCall(c) && (c.policy.unlimited || ExemptSell(c))
    ensures !Holds(st, c) && Next(st, Arrives(c)) == State(Purge(st.queue, c.now), Purge(st.days, c.now))
  {
    GateMeasuresWorth(c);
  }

  /** Whatever else the order is, a number that cannot be read holds it, and so does a store that raises. */
  lemma FaultsHold(st: State, c: Call)
    requires c.signal.price == Unreadable || c.signal.position == Unreadable ||
             (c.available && c.fault !in {NoFault, PushFails} && NumericCall(c) && !c.policy.unlimited && !ExemptSell(c))
    ensures Holds(st, c)
  {
  }

  /** The pair of the order has an order pending. */
  predicate PairPending(st: State, c: Call) {
    Q.HasPending(Purge(st.queue, c.now), c.signal.symbol, c.user)
  }

  lemma QueueingLeavesPending(st: State, c: Call)
    requires Pushes(st, c)
    ensures var queue := Next(st, Arrives(c)).queue;
            Q.Pending(c.id) in queue && queue[Q.Pending(c.id)].value == Q.Blob(OrderOf(c)) && Q.HasPending(queue, c.signal.symbol, c.user)
  {
    var s, e := Purge(st.queue, c.now), Q.Push(OrderOf(c), c.px);
    Q.WholeLanding(s, e, c.now);
    Q.PushLandings(s, Q.Step(e, c.now, |Q.Commands(s, e)|));
    assert Next(st, Arrives(c)).queue == Q.Queued(s, OrderOf(c), c.px, c.now);
  }

  /** The outcome of an order that is neither unlimited nor exempt, worth `v`, against what the day has left. */
  ghost predicate KeepsLimits(st: State, c: Call, total: real, v: real, perTrade: real, perDay: real) {
    var next := Next(st, Arrives(c));
    && (!Holds(st, c) <==> !PairPending(st, c) && 0.0 < v <= perTrade && total + v <= perDay)
    && (!Holds(st, c) ==> Current(next.days, c.date) == Fin(total + v) && next.queue == Purge(st.queue, c.now))
    && (Holds(st, c) ==> next.days == Purge(st.days, c.now))
    && (Holds(st, c) && PairPending(st, c) ==> next.queue == Purge(st.queue, c.now))
    && (Holds(st, c) && !PairPending(st, c) ==>
          Q.Pending(c.id) in next.queue && Q.HasPending(next.queue, c.signal.symbol, c.user))
  }

  lemma BranchOnNumbers(policy: Policy, signal: Signal, calculated: Reading, pending: bool, total: real, v: real,
                        perTrade: real, perDay: real)
    requires Readable(signal, calculated) && OrderValue(signal, calculated) == Fin(v) && !policy.unlimited
    requires !(ReducesPosition(signal) && policy.exemptSells) && policy.perTrade == Fin(perTrade) && policy.perDay == Fin(perDay)
    ensures Decide(policy, signal, calculated, pending, Fin(total)) ==
            if pending then AlreadyPending else if v <= 0.0 then Unvalued else if v > perTrade then PerTrade
            else if total + v > perDay then PerDay else UnderLimit
  {
  }

  lemma OneOrderKeepsLimits(st: State, c: Call, total: real, v: real, perTrade: real, perDay: real)
    requires NumericCall(c) && v == Worth(c) && !c.policy.unlimited && !ExemptSell(c) && c.available && c.fault == NoFault
    requires c.policy.perTrade == Fin(perTrade) && c.policy.perDay == Fin(perDay)
    requires Current(Purge(st.days, c.now), c.date) == Fin(total)
    ensures KeepsLimits(st, c, total, v, perTrade, perDay)
  {
    GateMeasuresWorth(c);
    BranchOnNumbers(c.policy, c.signal, c.calculated, PairPending(st, c), total, v, perTrade, perDay);
    var branch := Outcome(st, c);
    assert branch == Plain(st, c);
    if Queues(branch) {
      QueueingLeavesPending(st, c);
    } else if branch == UnderLimit {
      BookedIsRead(Purge(st.days, c.now), c.date, v, total, c.now);
    }
  }

  lemma BookedIsRead(days: Days, date: string, v: real, total: real, now: int)
    requires Current(days, date) == Fin(total)
    ensures Current(Booked(days, date, Fin(v), now), date) == Fin(total + v)
  {
  }

  /**
   With a working store, in every run and on every day: an order that is neither unlimited nor exempt
   executes on its own exactly when nothing is pending for its pair and its worth is positive, within
   the per-trade limit and within what the day's charges leave of the day limit. Then its worth is
   added to the day; otherwise the day stays, and the order is queued unless its pair already is.
   */
  lemma GateKeepsItsLimits(states: seq<State>, events: seq<Event>, i: nat, c: Call, total: real, perTrade: real, perDay: real)
    requires IsRun(states, events) && i <= |events| && OneDay(events, i, c.date, c.now)
    requires DayTotal(states, events, i, c.date) == Fin(total)
    requires NumericCall(c) && !c.policy.unlimited && !ExemptSell(c) && c.available && c.fault == NoFault
    requires c.policy.perTrade == Fin(perTrade) && c.policy.perDay == Fin(perDay)
    ensures KeepsLimits(states[i], c, total, Worth(c), perTrade, perDay)
  {
    CounterReadsDayTotal(states, events, i, c.date, c.now);
    OneOrderKeepsLimits(states[i], c, total, Worth(c), perTrade, perDay);
  }

  /** The rollover clears the previous day and no other, and leaves the queue alone. */
  lemma RolloverClearsOnlyItsDay(st: State, date: string, other: string, at: int)
    ensures var next := Next(st, Rollover(date, at));
            && Current(next.days, date) == ZERO && next.queue == Purge(st.queue, at)
            && (other != date ==> Current(next.days, other) == Current(Purge(st.days, at), other))
  {
  }

  /** Without a store nothing can be queued or counted: the limits apply to the order alone. */
  lemma LimitsWithoutStore(st: State, c: Call, perTrade: real, perDay: real)
    requires NumericCall(c) && !c.policy.unlimited && !ExemptSell(c) && !c.available
    requires c.policy.perTrade == Fin(perTrade) && c.policy.perDay == Fin(perDay)
    ensures !Holds(st, c) <==> 0.0 < Worth(c) <= perTrade && Worth(c) <= perDay
    ensures Next(st, Arrives(c)) == State(Purge(st.queue, c.now), Purge(st.days, c.now))
  {
    GateMeasuresWorth(c);
  }
}
