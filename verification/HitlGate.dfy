/**
 The approval gate and its daily budget (core/hitl_gate.py, core/hitl_day_notional.py): which order
 executes on its own, which waits for a human, and what the persisted day counter adds up to.
 */
module HitlGate {
  import opened Options
  import opened TtlMap
  import I = HitlIndex
  import Q = HitlQueue

  const DAY_TTL := 172_800_000

  // ----- Floating-point values, rounding aside -----

  datatype Num = Fin(v: real) | PosInf | NegInf | NaN

  const ZERO := Fin(0.0)

  function Abs(a: Num): Num {
    match a
    case Fin(x) => Fin(if x < 0.0 then -x else x)
    case NegInf => PosInf
    case _ => a
  }

  function Signed(sign: real): Num {
    if sign > 0.0 then PosInf else if sign < 0.0 then NegInf else NaN
  }

  function Sign(a: Num): real {
    match a
    case Fin(x) => if x > 0.0 then 1.0 else if x < 0.0 then -1.0 else 0.0
    case PosInf => 1.0
    case NegInf => -1.0
    case NaN => 0.0
  }

  function Mul(a: Num, b: Num): Num {
    if a.NaN? || b.NaN? then NaN
    else if a.Fin? && b.Fin? then Fin(a.v * b.v)
    else Signed(Sign(a) * Sign(b))
  }

  function Add(a: Num, b: Num): Num {
    if a.NaN? || b.NaN? then NaN
    else if a.Fin? && b.Fin? then Fin(a.v + b.v)
    else if a.Fin? then b
    else if b.Fin? || a == b then a
    else NaN
  }

  /** Every comparison with NaN is false. */
  predicate Exceeds(a: Num, b: Num) {
    && !a.NaN? && !b.NaN?
    && match a
       case Fin(x) => b.NegInf? || (b.Fin? && x > b.v)
       case PosInf => !b.PosInf?
       case _ => false
  }

  predicate AtMost(a: Num, b: Num) {
    !a.NaN? && !b.NaN? && !Exceeds(a, b)
  }

  // ----- One order -----

  datatype Action = Buy | Sell | Other

  /** An attribute that `float(x or 0.0)` reads: absent or falsy, not a number, or a value. */
  datatype Reading = Missing | Unreadable | Value(n: Num)

  datatype Signal = Signal(symbol: string, action: Action, price: Reading, position: Reading, suggested: Reading)

  datatype Policy = Policy(unlimited: bool, exemptSells: bool, perTrade: Num, perDay: Num)

  function Float(r: Reading): Num {
    if r.Value? then r.n else ZERO
  }

  /** The executor's quantity, the signal's own, and for a sell the position. */
  function OrderQty(signal: Signal, calculated: Reading): Num {
    var own := Abs(Float(calculated));
    if !AtMost(own, ZERO) then own
    else
      var suggested := Abs(Float(signal.suggested));
      if AtMost(suggested, ZERO) && signal.action.Sell? then Abs(Float(signal.position)) else suggested
  }

  function OrderValue(signal: Signal, calculated: Reading): Num {
    Mul(OrderQty(signal, calculated), Float(signal.price))
  }

  predicate ReducesPosition(signal: Signal) {
    signal.action.Sell? && Exceeds(Float(signal.position), ZERO)
  }

  /** The suggested quantity is read only when the executor gave none. */
  predicate Readable(signal: Signal, calculated: Reading) {
    && !signal.price.Unreadable? && !signal.position.Unreadable?
    && (AtMost(Abs(Float(calculated)), ZERO) ==> !signal.suggested.Unreadable?)
  }

  datatype Branch = Unlimited | Exempt | AlreadyPending | Unvalued | PerTrade | PerDay | UnderLimit | GateError

  function Decide(policy: Policy, signal: Signal, calculated: Reading, pending: bool, day: Num): Branch {
    var value := OrderValue(signal, calculated);
    if !Readable(signal, calculated) then GateError
    else if policy.unlimited then Unlimited
    else if ReducesPosition(signal) && policy.exemptSells then Exempt
    else if pending then AlreadyPending
    else if AtMost(value, ZERO) then Unvalued
    else if Exceeds(value, policy.perTrade) then PerTrade
    else if Exceeds(Add(day, value), policy.perDay) then PerDay
    else UnderLimit
  }

  predicate Executes(b: Branch) {
    b.Unlimited? || b.Exempt? || b.UnderLimit?
  }

  predicate Queues(b: Branch) {
    b.Unvalued? || b.PerTrade? || b.PerDay?
  }

  lemma ValueIsNaNExactly(signal: Signal, calculated: Reading)
    ensures var qty, price := OrderQty(signal, calculated), Float(signal.price);
            OrderValue(signal, calculated).NaN? <==>
              || qty.NaN? || price.NaN?
              || (qty == ZERO && !price.Fin?) || (price == ZERO && !qty.Fin?)
  {
  }

  // ----- The persisted day counter -----

  type Days = map<string, Cell<Num>>

  function Current(days: Days, date: string): Num {
    match Read(days, date)
    case None => ZERO
    case Some(n) => n
  }

  /** `incrbyfloat`, before the separate `pexpire`. */
  function Incremented(days: Days, date: string, amount: Num, now: int): Days {
    Write(days, date, Add(Current(days, date), amount), 0, now)
  }

  function Booked(days: Days, date: string, amount: Num, now: int): Days {
    Expire(Incremented(days, date, amount, now), date, DAY_TTL, now)
  }

  // ----- One call of the gate -----

  /** Where the store raises, if it does. Writes of a push that is cut off are the queue's subject. */
  datatype Fault = NoFault | PendingUnreadable | PushFails | DayUnreadable | AddFails | ExpireFails

  datatype Call = Call(policy: Policy, signal: Signal, user: string, calculated: Reading, date: string, now: int,
                       available: bool, fault: Fault, id: string, px: int)

  datatype State = State(queue: Q.Store, days: Days)

  function ValueOf(c: Call): Num {
    OrderValue(c.signal, c.calculated)
  }

  /** The branch a fault-free call takes; without a store nothing is pending and the day is empty. */
  function Plain(st: State, c: Call): Branch {
    var pending := c.available && Q.HasPending(Purge(st.queue, c.now), c.signal.symbol, c.user);
    var day := if c.available then Current(Purge(st.days, c.now), c.date) else ZERO;
    Decide(c.policy, c.signal, c.calculated, pending, day)
  }

  predicate Faults(plain: Branch, c: Call) {
    c.available &&
    match c.fault
    case PendingUnreadable => !plain.Unlimited? && !plain.Exempt?
    case DayUnreadable => plain.PerTrade? || plain.PerDay? || plain.UnderLimit?
    case AddFails => plain.UnderLimit?
    case ExpireFails => plain.UnderLimit?
    case _ => false
  }

  /** Any exception holds the order. */
  function Outcome(st: State, c: Call): Branch {
    if Faults(Plain(st, c), c) then GateError else Plain(st, c)
  }

  predicate Holds(st: State, c: Call) {
    !Executes(Outcome(st, c))
  }

  function OrderOf(c: Call): Q.Order {
    Q.Order(c.id, c.user, c.signal.symbol, "")
  }

  /** The order is written to the queue. */
  predicate Pushes(st: State, c: Call) {
    c.available && Queues(Outcome(st, c)) && c.fault != PushFails
  }

  function NextQueue(st: State, c: Call): Q.Store {
    if Pushes(st, c) then Q.After(st.queue, Q.Push(OrderOf(c), c.px), c.now) else Purge(st.queue, c.now)
  }

  /** The order's value reaches the day counter. */
  predicate Charged(st: State, c: Call) {
    c.available && Plain(st, c).UnderLimit? && (Faults(UnderLimit, c) ==> c.fault.ExpireFails?)
  }

  function NextDays(st: State, c: Call): Days {
    var days := Purge(st.days, c.now);
    if !Charged(st, c) then days
    else if c.fault.ExpireFails? then Incremented(days, c.date, ValueOf(c), c.now)
    else Booked(days, c.date, ValueOf(c), c.now)
  }

  /**
   With both limits 0 a readable order that is not exempt executes exactly when its value is not a
   number, its pair has no pending order, and the day counter takes the amount or there is no store:
   every comparison of the gate is then false. A store that refuses to add such a value holds it.
   */
  lemma AllManualLeaksExactlyNaN(st: State, c: Call)
    requires !c.policy.unlimited && c.policy.perTrade == ZERO && c.policy.perDay == ZERO
    requires Readable(c.signal, c.calculated) && !(ReducesPosition(c.signal) && c.policy.exemptSells)
    ensures !Holds(st, c) <==>
              && ValueOf(c).NaN?
              && (c.available ==> c.fault in {NoFault, PushFails} && !Q.HasPending(Purge(st.queue, c.now), c.signal.symbol, c.user))
  {
  }

  // ----- Runs -----

  datatype Event =
    | Arrives(call: Call)
    | Rollover(date: string, at: int)      // deletes the counter of the previous trading day
    | InQueue(step: Q.Step)                // a human or the trading loop works on the queue

  function Time(e: Event): int {
    match e
    case Arrives(c) => c.now
    case Rollover(_, at) => at
    case InQueue(step) => step.now
  }

  function Worked(queue: Q.Store, step: Q.Step): Q.Store {
    Q.PerformAll(Purge(queue, step.now), Q.Landing(Purge(queue, step.now), step), step.now)
  }

  function Next(st: State, e: Event): State {
    match e
    case Arrives(c) => State(NextQueue(st, c), NextDays(st, c))
    case Rollover(date, at) => State(Purge(st.queue, at), Purge(st.days, at) - {date})
    case InQueue(step) => State(Worked(st.queue, step), Purge(st.days, step.now))
  }

  ghost predicate IsRun(states: seq<State>, events: seq<Event>) {
    && |states| == |events| + 1 && states[0] == State(map[], map[])
    && (forall i | 0 <= i < |events| :: Follows(states, events, i))
  }

  predicate Follows(states: seq<State>, events: seq<Event>, i: nat)
    requires i < |events| < |states|
  {
    states[i + 1] == Next(states[i], events[i])
  }

  predicate ChargedOn(st: State, e: Event, date: string) {
    e.Arrives? && e.call.date == date && Charged(st, e.call)
  }

  /** Everything charged to `date` so far. */
  function DayTotal(states: seq<State>, events: seq<Event>, i: nat, date: string): Num
    requires i <= |events| <= |states|
  {
    if i == 0 then ZERO
    else
      var before := DayTotal(states, events, i - 1, date);
      if ChargedOn(states[i - 1], events[i - 1], date) then Add(before, ValueOf(events[i - 1].call)) else before
  }

  /** One trading day: its counter is not rolled over, and the run ends within 48 hours of its calls. */
  ghost predicate OneDay(events: seq<Event>, i: nat, date: string, end: int)
    requires i <= |events|
  {
    && (forall k | 0 <= k < i :: Time(events[k]) <= end)
    && (forall k | 0 <= k < i && events[k].Arrives? && events[k].call.date == date :: end <= Time(events[k]) + 172_800_000)
    && (forall k | 0 <= k < i && events[k].Rollover? :: events[k].date != date)
  }

  ghost predicate CounterIs(days: Days, date: string, total: Num, end: int) {
    if date in days
    then days[date].value == total && (days[date].deadline.Some? ==> end <= days[date].deadline.value)
    else total == ZERO
  }

  lemma ChargeKeepsCounter(st: State, e: Event, date: string, total: Num, end: int)
    requires CounterIs(st.days, date, total, end) && Time(e) <= end
    requires e.Arrives? && e.call.date == date ==> end <= Time(e) + 172_800_000
    requires e.Rollover? ==> e.date != date
    ensures CounterIs(Next(st, e).days, date,
                      if ChargedOn(st, e, date) then Add(total, ValueOf(e.call)) else total, end)
  {
    assert CounterIs(Purge(st.days, Time(e)), date, total, end);
  }

  lemma {:induction false} CounterHoldsDayTotal(states: seq<State>, events: seq<Event>, i: nat, date: string, end: int)
    requires IsRun(states, events) && i <= |events| && OneDay(events, i, date, end)
    ensures CounterIs(states[i].days, date, DayTotal(states, events, i, date), end)
    decreases i
  {
    if i > 0 {
      CounterHoldsDayTotal(states, events, i - 1, date, end);
      assert Follows(states, events, i - 1);
      ChargeKeepsCounter(states[i - 1], events[i - 1], date, DayTotal(states, events, i - 1, date), end);
    }
  }

  /** What the gate reads is exactly what was charged, whatever days, rollovers and faults came between. */
  lemma CounterReadsDayTotal(states: seq<State>, events: seq<Event>, i: nat, date: string, now: int)
    requires IsRun(states, events) && i <= |events| && OneDay(events, i, date, now)
    ensures Current(Purge(states[i].days, now), date) == DayTotal(states, events, i, date)
  {
    CounterHoldsDayTotal(states, events, i, date, now);
  }

  /** No order executes unbooked, but by policy or for want of a store. */
  lemma ExecutedIsCharged(st: State, c: Call)
    requires !c.policy.unlimited && !(ReducesPosition(c.signal) && c.policy.exemptSells) && c.available
    ensures !Holds(st, c) ==> Charged(st, c)
  {
  }

  ghost predicate RealValues(states: seq<State>, events: seq<Event>, i: nat, date: string)
    requires i <= |events| <= |states|
  {
    forall k | 0 <= k < i && ChargedOn(states[k], events[k], date) :: !ValueOf(events[k].call).NaN?
  }

  lemma {:induction false} RealTotal(states: seq<State>, events: seq<Event>, i: nat, date: string)
    requires i <= |events| <= |states| && RealValues(states, events, i, date)
    ensures AtMost(ZERO, DayTotal(states, events, i, date))
    decreases i
  {
    if i > 0 {
      RealTotal(states, events, i - 1, date);
    }
  }

  /**
   The daily budget: while the day's charged values are numbers, a booking leaves the total of the
   day within the day limit in force at that moment and the order within its per-trade limit,
   exactly when the order's own value is a number.
   */
  lemma BookingsStayWithinBudget(states: seq<State>, events: seq<Event>, j: nat, date: string)
    requires IsRun(states, events) && j < |events| && OneDay(events, j, date, Time(events[j]))
    requires ChargedOn(states[j], events[j], date) && RealValues(states, events, j, date)
    requires !events[j].call.policy.perTrade.NaN? && !events[j].call.policy.perDay.NaN?
    ensures !ValueOf(events[j].call).NaN? <==>
              && AtMost(DayTotal(states, events, j + 1, date), events[j].call.policy.perDay)
              && AtMost(ValueOf(events[j].call), events[j].call.policy.perTrade)
  {
    CounterReadsDayTotal(states, events, j, date, Time(events[j]));
    RealTotal(states, events, j, date);
  }

  lemma {:induction false} NaNSticks(states: seq<State>, events: seq<Event>, j: nat, i: nat, date: string)
    requires j < i <= |events| <= |states|
    requires ChargedOn(states[j], events[j], date) && ValueOf(events[j].call).NaN?
    ensures DayTotal(states, events, i, date).NaN?
    decreases i
  {
    if j < i - 1 {
      NaNSticks(states, events, j, i - 1, date);
    }
  }

  /** One charged value that is not a number switches the day limit off for the rest of the day. */
  lemma NaNDisablesDayLimit(states: seq<State>, events: seq<Event>, j: nat, i: nat, c: Call)
    requires IsRun(states, events) && j < i <= |events| && OneDay(events, i, c.date, c.now)
    requires ChargedOn(states[j], events[j], c.date) && ValueOf(events[j].call).NaN?
    ensures c.available ==> Outcome(states[i], c) != PerDay
  {
    NaNSticks(states, events, j, i, c.date);
    CounterReadsDayTotal(states, events, i, c.date, c.now);
  }

  /** Without a store nothing is counted: each order meets the day limit alone, whatever ran before. */
  lemma WithoutStoreNoMemory(states: seq<State>, events: seq<Event>, i: nat, c: Call)
    requires IsRun(states, events) && i <= |events| && !c.available
    ensures Outcome(states[i], c) == Decide(c.policy, c.signal, c.calculated, false, ZERO)
    ensures forall d | d in Purge(states[i].days, c.now) ::
              Current(Next(states[i], Arrives(c)).days, d) == Current(Purge(states[i].days, c.now), d)
  {
  }

  // ----- The gate and the queue -----

  /** What an event does to the queue; one that only lets time pass acknowledges nothing. */
  function QueueStep(st: State, e: Event): Q.Step {
    match e
    case Arrives(c) =>
      if Pushes(st, c) then Q.Step(Q.Push(OrderOf(c), c.px), c.now, 3) else Q.Step(Q.Ack(""), c.now, 0)
    case Rollover(_, at) => Q.Step(Q.Ack(""), at, 0)
    case InQueue(step) => step
  }

  lemma QueueStepIsNext(st: State, e: Event, pushed: map<string, Q.Order>)
    ensures Q.Next(Q.State(st.queue, pushed), QueueStep(st, e)).store == Next(st, e).queue
  {
  }

  /** The queue with every order pushed so far, by the gate or past it. */
  function QueueState(states: seq<State>, events: seq<Event>, i: nat): Q.State
    requires i <= |events| <= |states|
  {
    if i == 0 then Q.State(map[], map[])
    else Q.Next(QueueState(states, events, i - 1), QueueStep(states[i - 1], events[i - 1]))
  }

  /** Time does not run backwards, and every queue call is possible: fresh ids, claims of what is listed. */
  ghost predicate InOrder(states: seq<State>, events: seq<Event>)
    requires |events| <= |states|
  {
    && (forall i, j | 0 <= i < j < |events| :: Time(events[i]) <= Time(events[j]))
    && (forall i | 0 <= i < |events| :: Possible(states, events, i))
  }

  ghost predicate Possible(states: seq<State>, events: seq<Event>, i: nat)
    requires i < |events| <= |states|
  {
    Q.Enabled(QueueState(states, events, i), QueueStep(states[i], events[i]))
  }

  function QueueStates(states: seq<State>, events: seq<Event>): seq<Q.State>
    requires |states| == |events| + 1
  {
    seq(|states|, i requires 0 <= i < |states| => QueueState(states, events, i))
  }

  function QueueSteps(states: seq<State>, events: seq<Event>): seq<Q.Step>
    requires |states| == |events| + 1
  {
    seq(|events|, i requires 0 <= i < |events| => QueueStep(states[i], events[i]))
  }

  lemma {:induction false} QueueOfRun(states: seq<State>, events: seq<Event>, i: nat)
    requires IsRun(states, events) && i <= |events|
    ensures QueueState(states, events, i).store == states[i].queue
    decreases i
  {
    if i > 0 {
      QueueOfRun(states, events, i - 1);
      assert Follows(states, events, i - 1);
      QueueStepIsNext(states[i - 1], events[i - 1], QueueState(states, events, i - 1).pushed);
    }
  }

  lemma QueueFollows(states: seq<State>, events: seq<Event>, i: nat)
    requires |states| == |events| + 1 && i < |events|
    requires Possible(states, events, i)
    ensures Q.Follows(QueueStates(states, events), QueueSteps(states, events), i)
  {
    assert QueueStates(states, events)[i + 1] == QueueState(states, events, i + 1);
  }

  lemma QueueStepsInOrder(states: seq<State>, events: seq<Event>)
    requires |states| == |events| + 1 && InOrder(states, events)
    ensures var steps := QueueSteps(states, events);
            forall i, j | 0 <= i < j < |steps| :: steps[i].now <= steps[j].now
  {
    var steps := QueueSteps(states, events);
    forall i | 0 <= i < |steps| ensures steps[i].now == Time(events[i]) {
      assert steps[i] == QueueStep(states[i], events[i]);
    }
  }

  /** A run of the gate is a run of the queue, so whatever holds of queue runs holds of it. */
  lemma GateRunIsQueueRun(states: seq<State>, events: seq<Event>)
    requires IsRun(states, events) && InOrder(states, events)
    ensures Q.IsRun(QueueStates(states, events), QueueSteps(states, events))
    ensures forall i | 0 <= i <= |events| :: QueueStates(states, events)[i].store == states[i].queue
  {
    var qs, steps := QueueStates(states, events), QueueSteps(states, events);
    forall i | 0 <= i <= |events| ensures qs[i].store == states[i].queue {
      QueueOfRun(states, events, i);
    }
    QueueStepsInOrder(states, events);
    forall i | 0 <= i < |steps| ensures Q.Follows(qs, steps, i) {
      QueueFollows(states, events, i);
    }
  }

  ghost predicate SoundQueue(qst: Q.State, step: Q.Step) {
    Q.Faithful(qst.store, qst.pushed) && I.IndexIsSound(qst.store, qst.pushed) && Q.Enabled(qst, step)
  }

  lemma SoundAlongQueueRun(qs: seq<Q.State>, steps: seq<Q.Step>, i: nat)
    requires Q.IsRun(qs, steps) && i < |steps|
    ensures SoundQueue(qs[i], steps[i])
  {
    Q.RunsAreFaithful(qs, steps, i, steps[i].now);
    I.RunsKeepIndex(qs, steps, i);
    assert Q.Follows(qs, steps, i);
  }

  lemma QueueIsSound(states: seq<State>, events: seq<Event>, i: nat)
    requires IsRun(states, events) && InOrder(states, events) && i < |events|
    ensures var qst, step := QueueState(states, events, i), QueueStep(states[i], events[i]);
            && SoundQueue(qst, step)
            && qst.store == states[i].queue && Q.Next(qst, step).store == states[i + 1].queue
  {
    GateRunIsQueueRun(states, events);
    SoundAlongQueueRun(QueueStates(states, events), QueueSteps(states, events), i);
    QueueOfRun(states, events, i);
    QueueOfRun(states, events, i + 1);
  }

  /** A human, the trading loop or a direct push settles the order's name. */
  predicate Settled(st: State, e: Event, o: Q.Order) {
    e.InQueue? && I.Settles(Purge(st.queue, e.step.now), e.step.event, Q.NameOf(o))
  }

  /** While an order waits, no further order on its pair executes, is queued or is charged. */
  lemma WaitingHoldsThePair(st: State, c: Call, o: Q.Order, deadline: Option<int>)
    requires I.Waits(st.queue, o, deadline) && (deadline.Some? ==> c.now <= deadline.value)
    requires Q.NameOf(OrderOf(c)) == Q.NameOf(o)
    ensures !Pushes(st, c)
    ensures c.available && !c.policy.unlimited && !(ReducesPosition(c.signal) && c.policy.exemptSells) ==>
              Holds(st, c) && Next(st, Arrives(c)) == State(Purge(st.queue, c.now), Purge(st.days, c.now))
  {
    var s := Purge(st.queue, c.now);
    assert Q.Idx(Q.NameOf(o)) in s && Q.Pending(o.id) in s;
    assert Q.HasPending(s, c.signal.symbol, c.user);
  }

  lemma EventKeepsWaiting(st: State, e: Event, qst: Q.State, o: Q.Order, deadline: Option<int>)
    requires qst.store == st.queue && SoundQueue(qst, QueueStep(st, e))
    requires I.Waits(st.queue, o, deadline) && (deadline.Some? ==> Time(e) <= deadline.value) && !Settled(st, e, o)
    ensures I.Waits(Q.Next(qst, QueueStep(st, e)).store, o, deadline)
  {
    if e.Arrives? && Q.NameOf(OrderOf(e.call)) == Q.NameOf(o) {
      WaitingHoldsThePair(st, e.call, o, deadline);
    }
    I.StepKeepsWaiting(qst, QueueStep(st, e), o, deadline);
  }

  /** Event `k` is within the time of the order queued in event `i` and does not settle its name. */
  predicate Quiet(states: seq<State>, events: seq<Event>, i: nat, k: nat)
    requires i < k < |events| <= |states| && events[i].Arrives?
  {
    var c := events[i].call;
    (c.px != 0 ==> Time(events[k]) <= c.now + c.px) && !Settled(states[k], events[k], OrderOf(c))
  }

  ghost predicate Undisturbed(states: seq<State>, events: seq<Event>, i: nat, j: nat)
    requires i < j <= |events| <= |states| && events[i].Arrives?
  {
    forall k | i < k < j :: Quiet(states, events, i, k)
  }

  ghost predicate WaitsAt(states: seq<State>, events: seq<Event>, i: nat, j: nat)
    requires i < |events| && j < |states| && events[i].Arrives?
  {
    var c := events[i].call;
    I.Waits(states[j].queue, OrderOf(c), I.DeadlineOf(c.px, c.now))
  }

  lemma WaitsOnceQueued(states: seq<State>, events: seq<Event>, i: nat)
    requires IsRun(states, events) && InOrder(states, events) && i < |events|
    requires events[i].Arrives? && Pushes(states[i], events[i].call)
    ensures WaitsAt(states, events, i, i + 1)
  {
    QueueIsSound(states, events, i);
    I.PushedOrderWaits(QueueState(states, events, i), QueueStep(states[i], events[i]));
  }

  lemma WaitsOn(states: seq<State>, events: seq<Event>, i: nat, k: nat)
    requires IsRun(states, events) && InOrder(states, events) && i < k < |events|
    requires events[i].Arrives? && WaitsAt(states, events, i, k) && Quiet(states, events, i, k)
    ensures WaitsAt(states, events, i, k + 1)
  {
    var c := events[i].call;
    QueueIsSound(states, events, k);
    EventKeepsWaiting(states[k], events[k], QueueState(states, events, k), OrderOf(c), I.DeadlineOf(c.px, c.now));
  }

  /** From the call that queued it an order waits until its deadline, unless its name is settled. */
  lemma {:induction false} QueuedOrderWaits(states: seq<State>, events: seq<Event>, i: nat, j: nat)
    requires IsRun(states, events) && InOrder(states, events) && i < j <= |events|
    requires events[i].Arrives? && Pushes(states[i], events[i].call) && Undisturbed(states, events, i, j)
    ensures WaitsAt(states, events, i, j)
    decreases j
  {
    if j == i + 1 {
      WaitsOnceQueued(states, events, i);
    } else {
      QueuedOrderWaits(states, events, i, j - 1);
      WaitsOn(states, events, i, j - 1);
    }
  }

  /**
   Once the gate has queued an order, no further order on its pair executes, is queued or is charged
   until the order's time runs out, over any run of other orders, rollovers, faults and queue calls,
   cut off or not, none of which settles the name.
   */
  lemma QueuedPairIsHeld(states: seq<State>, events: seq<Event>, i: nat, j: nat, d: Call)
    requires IsRun(states, events) && InOrder(states, events) && i < j <= |events|
    requires events[i].Arrives? && Pushes(states[i], events[i].call)
    requires Undisturbed(states, events, i, j)
    requires var c := events[i].call;
             (c.px != 0 ==> d.now <= c.now + c.px) && d.user == c.user && d.signal.symbol == c.signal.symbol
    requires d.available && !d.policy.unlimited && !(ReducesPosition(d.signal) && d.policy.exemptSells)
    ensures Holds(states[j], d)
    ensures Next(states[j], Arrives(d)) == State(Purge(states[j].queue, d.now), Purge(states[j].days, d.now))
  {
    var c := events[i].call;
    QueuedOrderWaits(states, events, i, j);
    WaitingHoldsThePair(states[j], d, OrderOf(c), I.DeadlineOf(c.px, c.now));
  }

  // ----- What can settle the name -----

  /** No push past the gate is cut off between its last two writes. */
  ghost predicate NoTornPush(states: seq<State>, events: seq<Event>)
    requires |events| <= |states|
  {
    forall k | 0 <= k < |events| :: !TornPush(states, events, k)
  }

  predicate TornPush(states: seq<State>, events: seq<Event>, k: nat)
    requires k < |events| <= |states|
  {
    events[k].InQueue? && I.TornPush(QueueState(states, events, k), events[k].step)
  }

  lemma QueueIsComplete(states: seq<State>, events: seq<Event>, i: nat)
    requires IsRun(states, events) && InOrder(states, events) && NoTornPush(states, events) && i < |events|
    ensures I.IndexIsComplete(states[i].queue, QueueState(states, events, i).pushed)
  {
    var qs, steps := QueueStates(states, events), QueueSteps(states, events);
    GateRunIsQueueRun(states, events);
    forall k | 0 <= k < i ensures !I.TornPush(qs[k], steps[k]) {
      assert !TornPush(states, events, k) && qs[k] == QueueState(states, events, k) && steps[k] == QueueStep(states[k], events[k]);
    }
    I.RunsKeepIndex(qs, steps, i);
    assert qs[i] == QueueState(states, events, i);
  }

  /** Event `k` is within the time of the order queued in event `i` and neither approves, rejects nor supersedes it. */
  predicate Spares(events: seq<Event>, i: nat, k: nat)
    requires i < k < |events| && events[i].Arrives?
  {
    var c := events[i].call;
    && (c.px != 0 ==> Time(events[k]) <= c.now + c.px)
    && (events[k].InQueue? ==> !I.Ends(events[k].step.event, OrderOf(c)))
  }

  lemma SparedIsQuiet(states: seq<State>, events: seq<Event>, i: nat, k: nat)
    requires IsRun(states, events) && InOrder(states, events) && NoTornPush(states, events) && i < k < |events|
    requires events[i].Arrives? && Pushes(states[i], events[i].call) && Undisturbed(states, events, i, k)
    requires Spares(events, i, k)
    ensures Quiet(states, events, i, k)
  {
    var c := events[i].call;
    QueuedOrderWaits(states, events, i, k);
    QueueIsSound(states, events, k);
    QueueIsComplete(states, events, k);
    if events[k].InQueue? {
      NotEndedNotSettled(states[k], events[k], QueueState(states, events, k), OrderOf(c), I.DeadlineOf(c.px, c.now));
    }
  }

  /** Without torn pushes nothing but the end of the queued order itself settles its name. */
  lemma {:induction false} SettledOnlyByItsEnd(states: seq<State>, events: seq<Event>, i: nat, j: nat)
    requires IsRun(states, events) && InOrder(states, events) && NoTornPush(states, events) && i < j <= |events|
    requires events[i].Arrives? && Pushes(states[i], events[i].call)
    requires forall k | i < k < j :: Spares(events, i, k)
    ensures Undisturbed(states, events, i, j)
    decreases j
  {
    if i < j - 1 {
      SettledOnlyByItsEnd(states, events, i, j - 1);
      SparedIsQuiet(states, events, i, j - 1);
    }
  }

  lemma NotEndedNotSettled(st: State, e: Event, qst: Q.State, o: Q.Order, deadline: Option<int>)
    requires qst.store == st.queue && SoundQueue(qst, QueueStep(st, e)) && I.IndexIsComplete(st.queue, qst.pushed)
    requires I.Waits(st.queue, o, deadline) && (deadline.Some? ==> Time(e) <= deadline.value) && e.InQueue?
    ensures Settled(st, e, o) <==> I.Ends(e.step.event, o)
  {
    var s := Purge(st.queue, e.step.now);
    I.PurgeKeepsIndex(st.queue, qst.pushed, e.step.now);
    assert Q.Faithful(s, qst.pushed) && I.Waits(s, o, deadline);
    I.SettledByItsEnd(s, qst.pushed, e.step.event, o, deadline);
  }

  // ----- The gate object -----

  class Gate {
    const queue: Q.ApprovalQueue
    var days: Days

    constructor (queue: Q.ApprovalQueue)
      ensures this.queue == queue && days == map[]
    {
      this.queue := queue;
      days := map[];
    }

    ghost function Contents(): State
      reads this, queue
    {
      State(queue.store, days)
    }

    /** `HitlDayNotional.add`; the flag tells that the counter has the amount but the call raised. */
    method Book(date: string, amount: Num, now: int, fault: Fault) returns (raised: bool)
      modifies `days
      ensures raised == (fault.AddFails? || fault.ExpireFails?)
      ensures days == if fault.AddFails? then old(days)
                      else if fault.ExpireFails? then Incremented(old(days), date, amount, now)
                      else Booked(old(days), date, amount, now)
    {
      if fault.AddFails? {
        return true;
      }
      days := Write(days, date, Add(Current(days, date), amount), 0, now);
      if fault.ExpireFails? {
        return true;
      }
      days := Expire(days, date, DAY_TTL, now);
      raised := false;
    }

    method Queue(c: Call)
      requires queue.store == Purge(queue.store, c.now)
      modifies queue
      ensures queue.store == if c.available && c.fault != PushFails then Q.After(old(queue.store), Q.Push(OrderOf(c), c.px), c.now)
                             else old(queue.store)
    {
      if c.available && c.fault != PushFails {
        queue.Push(OrderOf(c), c.px, c.now);
      }
    }

    method ShouldHold(c: Call) returns (hold: bool)
      modifies this, queue
      ensures hold == Holds(old(Contents()), c)
      ensures Contents() == Next(old(Contents()), Arrives(c))
    {
      PurgeTwice(queue.store, c.now, c.now);
      queue.store := Purge(queue.store, c.now);
      days := Purge(days, c.now);
      if !Readable(c.signal, c.calculated) {
        return true;
      }
      var value := OrderValue(c.signal, c.calculated);
      if c.policy.unlimited {
        return false;
      }
      if ReducesPosition(c.signal) && c.policy.exemptSells {
        return false;
      }
      if c.available {
        if c.fault.PendingUnreadable? {
          return true;
        }
        if Q.HasPending(queue.store, c.signal.symbol, c.user) {
          return true;
        }
      }
      if AtMost(value, ZERO) {
        Queue(c);
        return true;
      }
      if c.available && c.fault.DayUnreadable? {
        return true;
      }
      var day := if c.available then Current(days, c.date) else ZERO;
      if Exceeds(value, c.policy.perTrade) || Exceeds(Add(day, value), c.policy.perDay) {
        Queue(c);
        return true;
      }
      hold := false;
      if c.available {
        hold := Book(c.date, value, c.now, c.fault);
      }
    }
  }
}
