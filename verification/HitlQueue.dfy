/**
 The approval queue (core/hitl_queue.py): orders waiting for a human, their secondary index, the
 approved orders and the in-flight markers, all entries of one store with deadlines. Every call
 is the list of store writes it makes, so a crash after any number of them is a prefix.
 */
module HitlQueue {
  import opened Options
  import opened TtlMap

  const APPROVED_WINDOW := 600_000
  const INFLIGHT_WINDOW := 86_400_000

  datatype Order = Order(id: string, user: string, symbol: string, details: string)

  /** `hitl:pending:`, `hitl:pending_idx:`, `hitl:approved:` and `hitl:inflight:` keys. */
  datatype Key = Pending(id: string) | Idx(name: string) | Approved(id: string) | Inflight(id: string)

  datatype Value = Blob(order: Order) | Ref(id: string)

  type Store = map<Key, Cell<Value>>

  datatype Command = Put(key: Key, value: Value, px: int) | Del(keys: set<Key>)

  datatype Event =
    | Push(order: Order, px: int)
    | Approve(id: string)
    | Reject(id: string)
    | Claim(ids: seq<string>)      // the approved ids in the order the store lists them
    | Ack(id: string)

  /** The tail of an index key. */
  function IdxName(user: string, symbol: string): string {
    user + ":" + symbol
  }

  function NameOf(o: Order): string {
    IdxName(o.user, o.symbol)
  }

  function OrderAt(s: Store, key: Key): Option<Order> {
    if key in s && s[key].value.Blob? then Some(s[key].value.order) else None
  }

  // ----- The calls, as lists of writes -----

  function PushCommands(s: Store, o: Order, px: int): seq<Command> {
    var idx := Idx(NameOf(o));
    var existing := Read(s, idx);
    (if existing.Some? && existing.value.Ref? then [Del({Pending(existing.value.id), idx})] else [])
    + [Put(Pending(o.id), Blob(o), px), Put(idx, Ref(o.id), px)]
  }

  function ApproveCommands(s: Store, id: string): seq<Command> {
    match OrderAt(s, Pending(id))
    case None => []
    case Some(o) => [Put(Approved(id), Blob(o), APPROVED_WINDOW), Del({Pending(id), Idx(NameOf(o))})]
  }

  function RejectCommands(s: Store, id: string): seq<Command> {
    match OrderAt(s, Pending(id))
    case None => [Del({Pending(id)})]
    case Some(o) => [Del({Pending(id), Idx(NameOf(o))})]
  }

  /** One approved order: the marker first, only then is the approved entry dropped. */
  function ClaimOne(s: Store, id: string): seq<Command> {
    match OrderAt(s, Approved(id))
    case None => [Del({Approved(id)})]
    case Some(o) =>
      [Put(Inflight(if o.id != "" then o.id else id), Blob(o), INFLIGHT_WINDOW), Del({Approved(id)})]
  }

  function ClaimCommands(s: Store, ids: seq<string>): seq<Command> {
    var n := |ids|;
    if n == 0 then [] else ClaimCommands(s, ids[..n - 1]) + ClaimOne(s, ids[n - 1])
  }

  function AckCommands(id: string): seq<Command> {
    if id == "" then [] else [Del({Inflight(id)})]
  }

  function Commands(s: Store, e: Event): seq<Command> {
    match e
    case Push(o, px) => PushCommands(s, o, px)
    case Approve(id) => ApproveCommands(s, id)
    case Reject(id) => RejectCommands(s, id)
    case Claim(ids) => ClaimCommands(s, ids)
    case Ack(id) => AckCommands(id)
  }

  function Perform(s: Store, c: Command, now: int): Store {
    match c
    case Put(key, value, px) => Write(s, key, value, px, now)
    case Del(keys) => s - keys
  }

  function PerformAll(s: Store, cs: seq<Command>, now: int): Store {
    var n := |cs|;
    if n == 0 then s else Perform(PerformAll(s, cs[..n - 1], now), cs[n - 1], now)
  }

  lemma {:induction false} PerformConcat(s: Store, a: seq<Command>, b: seq<Command>, now: int)
    ensures PerformAll(s, a + b, now) == PerformAll(PerformAll(s, a, now), b, now)
    decreases |b|
  {
    if b == [] {
      assert a + b == a;
    } else {
      var m := |b| - 1;
      assert (a + b)[..|a + b| - 1] == a + b[..m];
      PerformConcat(s, a, b[..m], now);
    }
  }

  lemma PerformOneOrTwo(s: Store, cs: seq<Command>, now: int)
    ensures |cs| == 1 ==> PerformAll(s, cs, now) == Perform(s, cs[0], now)
    ensures |cs| == 2 ==> PerformAll(s, cs, now) == Perform(Perform(s, cs[0], now), cs[1], now)
  {
    if |cs| == 1 {
      assert PerformAll(s, cs[..0], now) == s;
    } else if |cs| == 2 {
      assert cs[..1][..0] == cs[..0] && PerformAll(s, cs[..0], now) == s;
      assert PerformAll(s, cs[..1], now) == Perform(s, cs[0], now);
    }
  }

  // ----- The queries -----

  function HasPending(s: Store, symbol: string, user: string): bool {
    var idx := Read(s, Idx(IdxName(user, symbol)));
    idx.Some? && idx.value.Ref? && Pending(idx.value.id) in s
  }

  function GetPending(s: Store): set<Order> {
    set k | k in s && k.Pending? && s[k].value.Blob? :: s[k].value.order
  }

  function RecoverOrphanedInflight(s: Store): set<Order> {
    set k | k in s && k.Inflight? && s[k].value.Blob? :: s[k].value.order
  }

  ghost predicate Lists(s: Store, ids: seq<string>) {
    && (forall i, j | 0 <= i < j < |ids| :: ids[i] != ids[j])
    && (forall id :: id in ids <==> Approved(id) in s)
  }

  // ----- Runs with crashes -----

  /** The store, and every order ever pushed under its freshly drawn id. */
  datatype State = State(store: Store, pushed: map<string, Order>)

  /** A call at `now` whose first `landed` writes reach the store; then the process may have died. */
  datatype Step = Step(event: Event, now: int, landed: nat)

  function Landing(s: Store, step: Step): seq<Command> {
    var cs := Commands(s, step.event);
    if step.landed < |cs| then cs[..step.landed] else cs
  }

  predicate Whole(s: Store, step: Step) {
    step.landed >= |Commands(Purge(s, step.now), step.event)|
  }

  ghost predicate Enabled(st: State, step: Step) {
    match step.event
    case Push(o, _) => o.id != "" && o.id !in st.pushed
    case Claim(ids) => Lists(Purge(st.store, step.now), ids)
    case _ => true
  }

  function Next(st: State, step: Step): State {
    var s := Purge(st.store, step.now);
    State(PerformAll(s, Landing(s, step), step.now),
          if step.event.Push? then st.pushed[step.event.order.id := step.event.order] else st.pushed)
  }

  ghost predicate IsRun(states: seq<State>, steps: seq<Step>) {
    && |states| == |steps| + 1
    && states[0] == State(map[], map[])
    && (forall i, j | 0 <= i < j < |steps| :: steps[i].now <= steps[j].now)
    && (forall i | 0 <= i < |steps| :: Follows(states, steps, i))
  }

  ghost predicate Follows(states: seq<State>, steps: seq<Step>, i: nat)
    requires i < |steps| && |states| == |steps| + 1
  {
    Enabled(states[i], steps[i]) && states[i + 1] == Next(states[i], steps[i])
  }

  // ----- What the first writes of a call leave behind -----

  /** The store after the dedup delete of a push. */
  function Superseded(s: Store, o: Order): Store {
    var existing := Read(s, Idx(NameOf(o)));
    if existing.Some? && existing.value.Ref? then s - {Pending(existing.value.id), Idx(NameOf(o))} else s
  }

  function WithPending(s: Store, o: Order, px: int, now: int): Store {
    Write(Superseded(s, o), Pending(o.id), Blob(o), px, now)
  }

  function Queued(s: Store, o: Order, px: int, now: int): Store {
    Write(WithPending(s, o, px, now), Idx(NameOf(o)), Ref(o.id), px, now)
  }

  lemma DedupDeletes(s: Store, o: Order, px: int, now: int)
    ensures var n := |PushCommands(s, o, px)|;
            && 2 <= n <= 3 && PerformAll(s, PushCommands(s, o, px)[..n - 2], now) == Superseded(s, o)
  {
    PerformOneOrTwo(s, PushCommands(s, o, px)[..|PushCommands(s, o, px)| - 2], now);
  }

  lemma PerformPrefix(s: Store, cs: seq<Command>, k: nat, now: int)
    requires k < |cs|
    ensures PerformAll(s, cs[..k + 1], now) == Perform(PerformAll(s, cs[..k], now), cs[k], now)
  {
    assert cs[..k + 1][..k] == cs[..k];
  }

  /** What each number of landed writes of a push leaves: the dedup delete, the order, its index entry. */
  lemma PushLandings(s: Store, step: Step)
    requires step.event.Push?
    ensures var o, px, now := step.event.order, step.event.px, step.now;
            var n := |PushCommands(s, o, px)|;
            PerformAll(s, Landing(s, step), now) ==
              if step.landed >= n then Queued(s, o, px, now)
              else if step.landed == n - 1 then WithPending(s, o, px, now)
              else if step.landed == n - 2 then Superseded(s, o)
              else s
  {
    var o, px, now := step.event.order, step.event.px, step.now;
    var cs := PushCommands(s, o, px);
    var n := |cs|;
    DedupDeletes(s, o, px, now);
    PerformPrefix(s, cs, n - 2, now);
    PerformPrefix(s, cs, n - 1, now);
    assert cs[..n] == cs;
  }

  lemma ApproveLandings(s: Store, step: Step, id: string)
    requires step.event == Approve(id)
    ensures var t := PerformAll(s, Landing(s, step), step.now);
            match OrderAt(s, Pending(id))
            case None => t == s
            case Some(o) =>
              var copied := Write(s, Approved(id), Blob(o), APPROVED_WINDOW, step.now);
              t == if step.landed == 0 then s else if step.landed == 1 then copied else copied - {Pending(id), Idx(NameOf(o))}
  {
    PerformOneOrTwo(s, Landing(s, step), step.now);
    PerformOneOrTwo(s, ApproveCommands(s, id), step.now);
  }

  lemma RejectLandings(s: Store, step: Step, id: string)
    requires step.event == Reject(id)
    ensures var t := PerformAll(s, Landing(s, step), step.now);
            t == (if step.landed == 0 then s else Perform(s, RejectCommands(s, id)[0], step.now))
  {
    PerformOneOrTwo(s, Landing(s, step), step.now);
  }

  // ----- Every blob is the order pushed under its id -----

  ghost predicate EntryFits(k: Key, v: Value, pushed: map<string, Order>) {
    match k
    case Idx(_) => v.Ref?
    case _ => k.id in pushed && v == Blob(pushed[k.id])
  }

  ghost predicate Faithful(s: Store, pushed: map<string, Order>) {
    && (forall k | k in s :: EntryFits(k, s[k].value, pushed))
    && (forall id | id in pushed :: pushed[id].id == id && id != "")
  }

  ghost predicate CommandFits(c: Command, pushed: map<string, Order>) {
    c.Put? ==> EntryFits(c.key, c.value, pushed) && (c.key.Approved? ==> c.px == APPROVED_WINDOW)
               && (c.key.Inflight? ==> c.px == INFLIGHT_WINDOW)
  }

  ghost predicate AllFit(cs: seq<Command>, pushed: map<string, Order>) {
    forall c | c in cs :: CommandFits(c, pushed)
  }

  lemma {:induction false} ClaimFits(s: Store, ids: seq<string>, pushed: map<string, Order>)
    requires Faithful(s, pushed)
    ensures AllFit(ClaimCommands(s, ids), pushed)
    decreases |ids|
  {
    if |ids| > 0 {
      ClaimFits(s, ids[..|ids| - 1], pushed);
      assert AllFit(ClaimOne(s, ids[|ids| - 1]), pushed);
    }
  }

  lemma CommandsFit(s: Store, e: Event, pushed: map<string, Order>)
    requires Faithful(s, pushed)
    requires e.Push? ==> e.order.id in pushed && pushed[e.order.id] == e.order
    ensures AllFit(Commands(s, e), pushed)
  {
    match e
    case Claim(ids) => ClaimFits(s, ids, pushed);
    case _ =>
  }

  /** Approved orders expire within their window and markers within theirs. */
  ghost predicate InWindows(s: Store, now: int) {
    && (forall k | k in s && k.Approved? :: s[k].deadline.Some? && s[k].deadline.value <= now + APPROVED_WINDOW)
    && (forall k | k in s && k.Inflight? :: s[k].deadline.Some? && s[k].deadline.value <= now + INFLIGHT_WINDOW)
  }

  lemma {:induction false} WritesKeepFaith(s: Store, cs: seq<Command>, pushed: map<string, Order>, now: int)
    requires Faithful(s, pushed) && InWindows(s, now) && AllFit(cs, pushed)
    ensures Faithful(PerformAll(s, cs, now), pushed) && InWindows(PerformAll(s, cs, now), now)
    decreases |cs|
  {
    var n := |cs|;
    if n > 0 {
      WritesKeepFaith(s, cs[..n - 1], pushed, now);
      assert CommandFits(cs[n - 1], pushed);
    }
  }

  lemma StepKeepsFaith(st: State, step: Step)
    requires Faithful(st.store, st.pushed) && InWindows(st.store, step.now) && Enabled(st, step)
    ensures var s, pushed := Purge(st.store, step.now), Next(st, step).pushed;
            && Faithful(s, pushed) && InWindows(s, step.now) && AllFit(Commands(s, step.event), pushed)
    ensures Faithful(Next(st, step).store, Next(st, step).pushed) && InWindows(Next(st, step).store, step.now)
  {
    var s, pushed := Purge(st.store, step.now), Next(st, step).pushed;
    CommandsFit(s, step.event, pushed);
    WritesKeepFaith(s, Landing(s, step), pushed, step.now);
  }

  /** In every run, crashes included, each stored copy of an order is the order as it was pushed. */
  lemma {:induction false} RunsAreFaithful(states: seq<State>, steps: seq<Step>, i: nat, now: int)
    requires IsRun(states, steps) && i <= |steps|
    requires forall k | 0 <= k < i :: steps[k].now <= now
    ensures Faithful(states[i].store, states[i].pushed) && InWindows(states[i].store, now)
    decreases i
  {
    if i > 0 {
      RunsAreFaithful(states, steps, i - 1, steps[i - 1].now);
      assert Follows(states, steps, i - 1);
      StepKeepsFaith(states[i - 1], steps[i - 1]);
    }
  }

  // ----- The queue -----

  /** A call that is not cut off. */
  function After(s: Store, e: Event, now: int): Store {
    PerformAll(Purge(s, now), Commands(Purge(s, now), e), now)
  }

  lemma WholeLanding(s: Store, e: Event, now: int)
    ensures Landing(s, Step(e, now, |Commands(s, e)|)) == Commands(s, e)
  {
  }

  /** What a claim hands to the trading loop: the payloads, each with the id its marker carries. */
  function ClaimedOrders(s: Store, ids: seq<string>): seq<Order> {
    var n := |ids|;
    if n == 0 then []
    else
      ClaimedOrders(s, ids[..n - 1]) +
      match OrderAt(s, Approved(ids[n - 1]))
      case None => []
      case Some(o) => [o.(id := if o.id != "" then o.id else ids[n - 1])]
  }

  lemma {:induction false} ClaimLeavesOthers(s: Store, ids: seq<string>, now: int, id: string)
    requires id !in ids
    ensures OrderAt(PerformAll(s, ClaimCommands(s, ids), now), Approved(id)) == OrderAt(s, Approved(id))
    decreases |ids|
  {
    var n := |ids|;
    if n > 0 {
      ClaimLeavesOthers(s, ids[..n - 1], now, id);
      PerformConcat(s, ClaimCommands(s, ids[..n - 1]), ClaimOne(s, ids[n - 1]), now);
      PerformOneOrTwo(PerformAll(s, ClaimCommands(s, ids[..n - 1]), now), ClaimOne(s, ids[n - 1]), now);
    }
  }

  lemma ClaimNext(s: Store, ids: seq<string>, i: nat, now: int)
    requires i < |ids| && ids[i] !in ids[..i]
    ensures var t, id := PerformAll(s, ClaimCommands(s, ids[..i]), now), ids[i];
            var next, orders := PerformAll(s, ClaimCommands(s, ids[..i + 1]), now), ClaimedOrders(s, ids[..i + 1]);
            match OrderAt(t, Approved(id))
            case None => next == t - {Approved(id)} && orders == ClaimedOrders(s, ids[..i])
            case Some(o) =>
              var aid := if o.id != "" then o.id else id;
              && next == Write(t, Inflight(aid), Blob(o), INFLIGHT_WINDOW, now) - {Approved(id)}
              && orders == ClaimedOrders(s, ids[..i]) + [o.(id := aid)]
  {
    assert ids[..i + 1][..i] == ids[..i];
    ClaimLeavesOthers(s, ids[..i], now, ids[i]);
    PerformConcat(s, ClaimCommands(s, ids[..i]), ClaimOne(s, ids[i]), now);
    PerformOneOrTwo(PerformAll(s, ClaimCommands(s, ids[..i]), now), ClaimOne(s, ids[i]), now);
  }

  class ApprovalQueue {
    var store: Store

    constructor ()
      ensures store == map[]
    {
      store := map[];
    }

    method Push(order: Order, px: int, now: int)
      modifies this
      ensures store == After(old(store), Event.Push(order, px), now)
    {
      store := Purge(store, now);
      ghost var s := store;
      var idx := Idx(NameOf(order));
      var existing := Read(store, idx);
      if existing.Some? && existing.value.Ref? {
        store := store - {Pending(existing.value.id), idx};
      }
      store := Write(store, Pending(order.id), Blob(order), px, now);
      store := Write(store, idx, Ref(order.id), px, now);
      WholeLanding(s, Event.Push(order, px), now);
      PushLandings(s, Step(Event.Push(order, px), now, |PushCommands(s, order, px)|));
    }

    method Approve(id: string, now: int) returns (order: Option<Order>)
      modifies this
      ensures order == OrderAt(Purge(old(store), now), Pending(id))
      ensures store == After(old(store), Event.Approve(id), now)
    {
      store := Purge(store, now);
      ghost var s := store;
      WholeLanding(s, Event.Approve(id), now);
      ApproveLandings(s, Step(Event.Approve(id), now, |ApproveCommands(s, id)|), id);
      order := OrderAt(store, Pending(id));
      if order.None? {
        return;
      }
      store := Write(store, Approved(id), Blob(order.value), APPROVED_WINDOW, now);
      store := store - {Pending(id), Idx(NameOf(order.value))};
    }

    method Reject(id: string, now: int) returns (removed: bool)
      modifies this
      ensures removed == (Pending(id) in Purge(old(store), now))
      ensures store == After(old(store), Event.Reject(id), now)
    {
      store := Purge(store, now);
      PerformOneOrTwo(store, RejectCommands(store, id), now);
      var keys := {Pending(id)};
      var order := OrderAt(store, Pending(id));
      if order.Some? {
        keys := keys + {Idx(NameOf(order.value))};
      }
      removed := exists k | k in keys :: k in store;
      store := store - keys;
    }

    method ListApproved() returns (ids: seq<string>)
      ensures Lists(store, ids)
    {
      ids := [];
      var left := set k | k in store && k.Approved? :: k.id;
      while left != {}
        invariant forall i, j | 0 <= i < j < |ids| :: ids[i] != ids[j]
        invariant forall id :: id in left ==> id !in ids
        invariant forall id :: id in ids || id in left <==> Approved(id) in store
        decreases |left|
      {
        var id :| id in left;
        left := left - {id};
        ids := ids + [id];
      }
    }

    method ClaimApproved(now: int) returns (orders: seq<Order>, ghost ids: seq<string>)
      modifies this
      ensures Lists(Purge(old(store), now), ids)
      ensures orders == ClaimedOrders(Purge(old(store), now), ids)
      ensures store == After(old(store), Claim(ids), now)
    {
      store := Purge(store, now);
      ghost var s := store;
      var listed := ListApproved();
      ids := listed;
      orders := [];
      for i := 0 to |listed|
        invariant orders == ClaimedOrders(s, listed[..i])
        invariant store == PerformAll(s, ClaimCommands(s, listed[..i]), now)
      {
        ClaimNext(s, listed, i, now);
        var order := OrderAt(store, Approved(listed[i]));
        if order.Some? {
          var id := if order.value.id != "" then order.value.id else listed[i];
          store := Write(store, Inflight(id), Blob(order.value), INFLIGHT_WINDOW, now);
          orders := orders + [order.value.(id := id)];
        }
        store := store - {Approved(listed[i])};
      }
      assert listed[..|listed|] == listed;
    }

    method AckInflight(id: string, now: int) returns (removed: bool)
      modifies this
      ensures removed == (id != "" && Inflight(id) in Purge(old(store), now))
      ensures store == After(old(store), Ack(id), now)
    {
      store := Purge(store, now);
      PerformOneOrTwo(store, AckCommands(id), now);
      if id == "" {
        return false;
      }
      removed := Inflight(id) in store;
      store := store - {Inflight(id)};
    }
  }
}
