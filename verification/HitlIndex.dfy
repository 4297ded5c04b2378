/**
 The secondary index of the approval queue (core/hitl_queue.py): the constant-time lookup of
 `has_pending` answers what a scan of all pending orders would.
 */
module HitlIndex {
  import opened Options
  import opened TtlMap
  import opened HitlQueue

  /** Every index entry names a pending order of that name with the same deadline. */
  ghost predicate IndexIsSound(s: Store, pushed: map<string, Order>) {
    forall n | Idx(n) in s :: PointsToPending(s, n, pushed)
  }

  ghost predicate PointsToPending(s: Store, n: string, pushed: map<string, Order>)
    requires Idx(n) in s
  {
    var c := s[Idx(n)];
    && c.value.Ref? && Pending(c.value.id) in s && s[Pending(c.value.id)].deadline == c.deadline
    && c.value.id in pushed && NameOf(pushed[c.value.id]) == n
  }

  /** Every pending order is the one its index entry names. */
  ghost predicate IndexIsComplete(s: Store, pushed: map<string, Order>) {
    forall id | Pending(id) in s :: Indexed(s, id, pushed)
  }

  ghost predicate Indexed(s: Store, id: string, pushed: map<string, Order>) {
    && id in pushed && Idx(NameOf(pushed[id])) in s
    && s[Idx(NameOf(pushed[id]))].value == Ref(id)
  }

  lemma PurgeKeepsIndex(s: Store, pushed: map<string, Order>, now: int)
    ensures IndexIsSound(s, pushed) ==> IndexIsSound(Purge(s, now), pushed)
    ensures IndexIsSound(s, pushed) && IndexIsComplete(s, pushed) ==> IndexIsComplete(Purge(s, now), pushed)
  {
    var t := Purge(s, now);
    if IndexIsSound(s, pushed) {
      assert forall n | Idx(n) in t :: PointsToPending(s, n, pushed);
    }
    if IndexIsSound(s, pushed) && IndexIsComplete(s, pushed) {
      forall id | Pending(id) in t ensures Indexed(t, id, pushed) {
        assert Indexed(s, id, pushed) && PointsToPending(s, NameOf(pushed[id]), pushed);
      }
    }
  }

  lemma SupersededKeepsIndex(s: Store, pushed: map<string, Order>, o: Order)
    requires IndexIsSound(s, pushed)
    ensures IndexIsSound(Superseded(s, o), pushed) && Idx(NameOf(o)) !in Superseded(s, o)
    ensures IndexIsComplete(s, pushed) ==> IndexIsComplete(Superseded(s, o), pushed)
  {
    var t, name := Superseded(s, o), NameOf(o);
    if Idx(name) in s {
      assert PointsToPending(s, name, pushed);
    }
    forall n | Idx(n) in t ensures PointsToPending(t, n, pushed) {
      assert PointsToPending(s, n, pushed);
    }
    if IndexIsComplete(s, pushed) {
      forall id | Pending(id) in t ensures Indexed(t, id, pushed) {
        assert Indexed(s, id, pushed);
      }
    }
  }

  lemma PushKeepsIndex(s: Store, pushed: map<string, Order>, o: Order, px: int, now: int)
    requires IndexIsSound(s, pushed) && Faithful(s, pushed) && o.id !in pushed
    ensures var all := pushed[o.id := o];
            && IndexIsSound(WithPending(s, o, px, now), all)
            && IndexIsSound(Queued(s, o, px, now), all)
            && (IndexIsComplete(s, pushed) ==> IndexIsComplete(Queued(s, o, px, now), all))
  {
    SupersededKeepsIndex(s, pushed, o);
    var bare, all := Superseded(s, o), pushed[o.id := o];
    assert Pending(o.id) !in s by {
      assert Pending(o.id) in s ==> EntryFits(Pending(o.id), s[Pending(o.id)].value, pushed);
    }
    var mid, full := WithPending(s, o, px, now), Queued(s, o, px, now);
    forall n | Idx(n) in bare ensures PointsToPending(mid, n, all) && PointsToPending(full, n, all) {
      assert PointsToPending(bare, n, pushed);
    }
    assert PointsToPending(full, NameOf(o), all);
    if IndexIsComplete(s, pushed) {
      forall id | Pending(id) in full ensures Indexed(full, id, all) {
        assert id != o.id ==> Indexed(bare, id, pushed);
      }
    }
  }

  /** Deleting a pending order together with its index entry. */
  lemma RemovalKeepsIndex(s: Store, pushed: map<string, Order>, id: string)
    requires Faithful(s, pushed) && IndexIsSound(s, pushed) && Pending(id) in s
    ensures id in pushed
    ensures var t := s - {Pending(id), Idx(NameOf(pushed[id]))};
            IndexIsSound(t, pushed) && (IndexIsComplete(s, pushed) ==> IndexIsComplete(t, pushed))
  {
    assert EntryFits(Pending(id), s[Pending(id)].value, pushed);
    var t := s - {Pending(id), Idx(NameOf(pushed[id]))};
    forall n | Idx(n) in t ensures PointsToPending(t, n, pushed) {
      assert PointsToPending(s, n, pushed);
    }
    if IndexIsComplete(s, pushed) {
      forall other | Pending(other) in t ensures Indexed(t, other, pushed) {
        assert Indexed(s, other, pushed) && Indexed(s, id, pushed);
      }
    }
  }

  /** Two stores with the same pending and index entries. */
  ghost predicate SameWaiting(s: Store, t: Store) {
    forall k: Key | k.Pending? || k.Idx? :: (k in s <==> k in t) && (k in s ==> s[k] == t[k])
  }

  lemma SameWaitingSameIndex(s: Store, t: Store, pushed: map<string, Order>)
    requires SameWaiting(s, t)
    ensures IndexIsSound(s, pushed) ==> IndexIsSound(t, pushed)
    ensures IndexIsComplete(s, pushed) ==> IndexIsComplete(t, pushed)
  {
    if IndexIsSound(s, pushed) {
      assert forall n | Idx(n) in t :: PointsToPending(s, n, pushed);
    }
    if IndexIsComplete(s, pushed) {
      assert forall id | Pending(id) in t :: Indexed(s, id, pushed);
    }
  }

  /** Writes that leave the waiting orders alone. */
  ghost predicate Aside(c: Command) {
    match c
    case Put(k, _, _) => !k.Pending? && !k.Idx?
    case Del(keys) => forall k | k in keys :: !k.Pending? && !k.Idx?
  }

  lemma {:induction false} AsideKeepsWaiting(s: Store, cs: seq<Command>, now: int)
    requires forall c | c in cs :: Aside(c)
    ensures SameWaiting(s, PerformAll(s, cs, now))
    decreases |cs|
  {
    var n := |cs|;
    if n > 0 {
      AsideKeepsWaiting(s, cs[..n - 1], now);
      assert cs[n - 1] in cs;
    }
  }

  lemma {:induction false} ClaimIsAside(s: Store, ids: seq<string>)
    ensures forall c | c in ClaimCommands(s, ids) :: Aside(c)
    decreases |ids|
  {
    if |ids| > 0 {
      ClaimIsAside(s, ids[..|ids| - 1]);
    }
  }

  /** A push that is cut off between its last two writes. */
  predicate TornPush(st: State, step: Step) {
    && step.event.Push?
    && step.landed == |PushCommands(Purge(st.store, step.now), step.event.order, step.event.px)| - 1
  }

  /** One step keeps a sound and complete index complete exactly when it is not such a push. */
  lemma StepKeepsIndex(st: State, step: Step)
    requires Faithful(st.store, st.pushed) && Enabled(st, step) && IndexIsSound(st.store, st.pushed)
    ensures var next := Next(st, step);
            && IndexIsSound(next.store, next.pushed)
            && (IndexIsComplete(st.store, st.pushed) ==> (IndexIsComplete(next.store, next.pushed) <==> !TornPush(st, step)))
  {
    var s := Purge(st.store, step.now);
    PurgeKeepsIndex(st.store, st.pushed, step.now);
    assert Faithful(s, st.pushed);
    match step.event
    case Push(o, px) => PushStepKeepsIndex(s, step, st.pushed);
    case Approve(id) => ApproveKeepsIndex(s, step, st.pushed, id);
    case Reject(id) => RejectKeepsIndex(s, step, st.pushed, id);
    case Claim(ids) => ClaimIsAside(s, ids); AsideStepKeepsIndex(s, step, st.pushed);
    case Ack(id) => AsideStepKeepsIndex(s, step, st.pushed);
  }

  lemma AsideStepKeepsIndex(s: Store, step: Step, pushed: map<string, Order>)
    requires forall c | c in Commands(s, step.event) :: Aside(c)
    ensures var t := PerformAll(s, Landing(s, step), step.now);
            && (IndexIsSound(s, pushed) ==> IndexIsSound(t, pushed))
            && (IndexIsComplete(s, pushed) ==> IndexIsComplete(t, pushed))
  {
    AsideKeepsWaiting(s, Landing(s, step), step.now);
    SameWaitingSameIndex(s, PerformAll(s, Landing(s, step), step.now), pushed);
  }

  lemma PushStepKeepsIndex(s: Store, step: Step, pushed: map<string, Order>)
    requires step.event.Push? && step.event.order.id !in pushed && Faithful(s, pushed) && IndexIsSound(s, pushed)
    ensures var t, all := PerformAll(s, Landing(s, step), step.now), pushed[step.event.order.id := step.event.order];
            && IndexIsSound(t, all)
            && (IndexIsComplete(s, pushed) ==>
                  (IndexIsComplete(t, all) <==> step.landed != |PushCommands(s, step.event.order, step.event.px)| - 1))
  {
    var o := step.event.order;
    PushLandings(s, step);
    PushKeepsIndex(s, pushed, o, step.event.px, step.now);
    SupersededKeepsIndex(s, pushed, o);
    MoreOrdersSameIndex(s, pushed, o);
    MoreOrdersSameIndex(Superseded(s, o), pushed, o);
    var mid := WithPending(s, o, step.event.px, step.now);
    assert Pending(o.id) in mid && !Indexed(mid, o.id, pushed[o.id := o]);
  }

  lemma RejectKeepsIndex(s: Store, step: Step, pushed: map<string, Order>, id: string)
    requires step.event == Reject(id) && Faithful(s, pushed) && IndexIsSound(s, pushed)
    ensures var t := PerformAll(s, Landing(s, step), step.now);
            IndexIsSound(t, pushed) && (IndexIsComplete(s, pushed) ==> IndexIsComplete(t, pushed))
  {
    RejectLandings(s, step, id);
    if Pending(id) in s {
      assert EntryFits(Pending(id), s[Pending(id)].value, pushed);
      RemovalKeepsIndex(s, pushed, id);
    } else {
      assert s - {Pending(id)} == s;
    }
  }

  lemma MoreOrdersSameIndex(s: Store, pushed: map<string, Order>, o: Order)
    requires o.id !in pushed && IndexIsSound(s, pushed)
    ensures IndexIsSound(s, pushed[o.id := o])
    ensures IndexIsComplete(s, pushed) ==> IndexIsComplete(s, pushed[o.id := o])
  {
    forall n | Idx(n) in s ensures PointsToPending(s, n, pushed[o.id := o]) {
      assert PointsToPending(s, n, pushed);
    }
    if IndexIsComplete(s, pushed) {
      forall id | Pending(id) in s ensures Indexed(s, id, pushed[o.id := o]) {
        assert Indexed(s, id, pushed);
      }
    }
  }

  lemma ApproveKeepsIndex(s: Store, step: Step, pushed: map<string, Order>, id: string)
    requires step.event == Approve(id) && Faithful(s, pushed) && IndexIsSound(s, pushed)
    ensures var t := PerformAll(s, Landing(s, step), step.now);
            IndexIsSound(t, pushed) && (IndexIsComplete(s, pushed) ==> IndexIsComplete(t, pushed))
  {
    ApproveLandings(s, step, id);
    match OrderAt(s, Pending(id))
    case None =>
    case Some(o) =>
      assert EntryFits(Pending(id), s[Pending(id)].value, pushed);
      RemovalKeepsIndex(s, pushed, id);
      var copied := Write(s, Approved(id), Blob(o), APPROVED_WINDOW, step.now);
      SameWaitingSameIndex(s, copied, pushed);
      var gone := {Pending(id), Idx(NameOf(o))};
      SameWaitingSameIndex(s - gone, copied - gone, pushed);
  }

  // ----- Whole runs -----

  ghost predicate NoTornPush(states: seq<State>, steps: seq<Step>, i: nat)
    requires i <= |steps| <= |states|
  {
    forall k | 0 <= k < i :: !TornPush(states[k], steps[k])
  }

  lemma {:induction false} RunsKeepIndex(states: seq<State>, steps: seq<Step>, i: nat)
    requires IsRun(states, steps) && i <= |steps|
    ensures IndexIsSound(states[i].store, states[i].pushed)
    ensures NoTornPush(states, steps, i) ==> IndexIsComplete(states[i].store, states[i].pushed)
    decreases i
  {
    if i > 0 {
      RunsKeepIndex(states, steps, i - 1);
      RunsAreFaithful(states, steps, i - 1, steps[i - 1].now);
      assert Follows(states, steps, i - 1);
      StepKeepsIndex(states[i - 1], steps[i - 1]);
    }
  }

  /**
   In every run, with crashes anywhere, a positive answer of `has_pending` is backed by a live
   pending order of that name; while no push was cut off between its last two writes, so is every
   live pending order by a positive answer, and no two pending orders share a name.
   */
  lemma IndexAgreesWithScan(states: seq<State>, steps: seq<Step>, i: nat, t: int, symbol: string, user: string)
    requires IsRun(states, steps) && i <= |steps| && forall k | 0 <= k < i :: steps[k].now <= t
    ensures var s := Purge(states[i].store, t);
            && (HasPending(s, symbol, user) ==> exists o :: o in GetPending(s) && NameOf(o) == IdxName(user, symbol))
            && (NoTornPush(states, steps, i) ==>
                  && (forall o | o in GetPending(s) && NameOf(o) == IdxName(user, symbol) :: HasPending(s, symbol, user))
                  && (forall a, b | a in GetPending(s) && b in GetPending(s) && NameOf(a) == NameOf(b) :: a == b))
  {
    RunsKeepIndex(states, steps, i);
    RunsAreFaithful(states, steps, i, t);
    var pushed := states[i].pushed;
    PurgeKeepsIndex(states[i].store, pushed, t);
    var s := Purge(states[i].store, t);
    assert Faithful(s, pushed);
    if HasPending(s, symbol, user) {
      assert PointsToPending(s, IdxName(user, symbol), pushed);
      var id := s[Idx(IdxName(user, symbol))].value.id;
      assert EntryFits(Pending(id), s[Pending(id)].value, pushed);
      assert pushed[id] in GetPending(s);
    }
    if NoTornPush(states, steps, i) {
      forall o | o in GetPending(s) ensures Indexed(s, o.id, pushed) && pushed[o.id] == o && HasPending(s, o.symbol, o.user) {
        ListedIsIndexed(s, pushed, o);
      }
    }
  }

  lemma ListedIsIndexed(s: Store, pushed: map<string, Order>, o: Order)
    requires Faithful(s, pushed) && IndexIsComplete(s, pushed) && o in GetPending(s)
    ensures Indexed(s, o.id, pushed) && pushed[o.id] == o && HasPending(s, o.symbol, o.user)
  {
    var k: Key :| k in s && k.Pending? && s[k].value == Blob(o);
    assert EntryFits(k, s[k].value, pushed) && Indexed(s, k.id, pushed);
  }

  /** A push cut off between its two writes leaves an order that a scan lists and `has_pending` denies. */
  lemma TornPushIsNotIndexed(o: Order, px: int, now: int)
    requires px >= 0
    ensures var step := Step(Push(o, px), now, 1);
            var s := Purge(Next(State(map[], map[]), step).store, now);
            GetPending(s) == {o} && !HasPending(s, o.symbol, o.user)
  {
    var step := Step(Push(o, px), now, 1);
    var empty: Store := map[];
    assert Purge(empty, now) == empty;
    PerformOneOrTwo(empty, Landing(empty, step), now);
    var s := Purge(Next(State(map[], map[]), step).store, now);
    assert s.Keys == {Pending(o.id)} && s[Pending(o.id)].value == Blob(o);
    assert Pending(o.id) in s;
  }

  // ----- How long an order waits -----

  /** The order waits for its human: stored, and named by its index entry, both until `deadline`. */
  ghost predicate Waits(s: Store, o: Order, deadline: Option<int>) {
    && Pending(o.id) in s && s[Pending(o.id)] == Cell(Blob(o), deadline)
    && Idx(NameOf(o)) in s && s[Idx(NameOf(o))] == Cell(Ref(o.id), deadline)
  }

  function DeadlineOf(px: int, now: int): Option<int> {
    if px != 0 then Some(now + px) else None
  }

  /** The call approves, rejects or supersedes a pending order of that name. */
  predicate Settles(s: Store, e: Event, name: string) {
    match e
    case Push(p, _) => NameOf(p) == name
    case Approve(id) => OrderAt(s, Pending(id)).Some? && NameOf(OrderAt(s, Pending(id)).value) == name
    case Reject(id) => OrderAt(s, Pending(id)).Some? && NameOf(OrderAt(s, Pending(id)).value) == name
    case _ => false
  }

  /** The call approves or rejects this order, or supersedes it. */
  predicate Ends(e: Event, o: Order) {
    match e
    case Push(p, _) => NameOf(p) == NameOf(o)
    case Approve(id) => id == o.id
    case Reject(id) => id == o.id
    case _ => false
  }

  /** With a complete index an order shares its name with no other, so only its own end settles the name. */
  lemma SettledByItsEnd(s: Store, pushed: map<string, Order>, e: Event, o: Order, deadline: Option<int>)
    requires Faithful(s, pushed) && IndexIsComplete(s, pushed) && Waits(s, o, deadline)
    ensures Settles(s, e, NameOf(o)) <==> Ends(e, o)
  {
    if (e.Approve? || e.Reject?) && Pending(e.id) in s {
      assert EntryFits(Pending(e.id), s[Pending(e.id)].value, pushed) && Indexed(s, e.id, pushed);
    }
  }

  lemma PushedOrderWaits(st: State, step: Step)
    requires Faithful(st.store, st.pushed) && Enabled(st, step) && step.event.Push? && Whole(st.store, step)
    ensures Waits(Next(st, step).store, step.event.order, DeadlineOf(step.event.px, step.now))
  {
    var s, o := Purge(st.store, step.now), step.event.order;
    PushLandings(s, step);
    assert Pending(o.id) in s ==> EntryFits(Pending(o.id), st.store[Pending(o.id)].value, st.pushed);
    assert Idx(NameOf(o)) in s ==> EntryFits(Idx(NameOf(o)), st.store[Idx(NameOf(o))].value, st.pushed);
  }

  lemma PushKeepsWaiting(s: Store, pushed: map<string, Order>, step: Step, o: Order, deadline: Option<int>)
    requires Faithful(s, pushed) && IndexIsSound(s, pushed) && Waits(s, o, deadline)
    requires step.event.Push? && step.event.order.id !in pushed && NameOf(step.event.order) != NameOf(o)
    ensures Waits(PerformAll(s, Landing(s, step), step.now), o, deadline)
  {
    var p := step.event.order;
    PushLandings(s, step);
    assert EntryFits(Pending(o.id), s[Pending(o.id)].value, pushed);
    if Idx(NameOf(p)) in s {
      assert PointsToPending(s, NameOf(p), pushed);
    }
    assert Waits(Superseded(s, p), o, deadline);
  }

  lemma ApproveKeepsWaiting(s: Store, step: Step, o: Order, deadline: Option<int>)
    requires Waits(s, o, deadline) && step.event.Approve? && !Settles(s, step.event, NameOf(o))
    ensures Waits(PerformAll(s, Landing(s, step), step.now), o, deadline)
  {
    ApproveLandings(s, step, step.event.id);
  }

  lemma RejectKeepsWaiting(s: Store, step: Step, o: Order, deadline: Option<int>)
    requires Waits(s, o, deadline) && step.event.Reject? && !Settles(s, step.event, NameOf(o))
    ensures Waits(PerformAll(s, Landing(s, step), step.now), o, deadline)
  {
    RejectLandings(s, step, step.event.id);
  }

  lemma AsideKeepsOrderWaiting(s: Store, step: Step, o: Order, deadline: Option<int>)
    requires Waits(s, o, deadline) && forall c | c in Commands(s, step.event) :: Aside(c)
    ensures Waits(PerformAll(s, Landing(s, step), step.now), o, deadline)
  {
    AsideKeepsWaiting(s, Landing(s, step), step.now);
  }

  /** Before its deadline no call ends an order's waiting, cut off or not, but one that settles its name. */
  lemma StepKeepsWaiting(st: State, step: Step, o: Order, deadline: Option<int>)
    requires Faithful(st.store, st.pushed) && IndexIsSound(st.store, st.pushed) && Enabled(st, step)
    requires Waits(st.store, o, deadline) && (deadline.Some? ==> step.now <= deadline.value)
    requires !Settles(Purge(st.store, step.now), step.event, NameOf(o))
    ensures Waits(Next(st, step).store, o, deadline)
  {
    var s := Purge(st.store, step.now);
    PurgeKeepsIndex(st.store, st.pushed, step.now);
    assert Faithful(s, st.pushed) && Waits(s, o, deadline);
    match step.event
    case Push(_, _) => PushKeepsWaiting(s, st.pushed, step, o, deadline);
    case Approve(_) => ApproveKeepsWaiting(s, step, o, deadline);
    case Reject(_) => RejectKeepsWaiting(s, step, o, deadline);
    case Claim(ids) => ClaimIsAside(s, ids); AsideKeepsOrderWaiting(s, step, o, deadline);
    case Ack(_) => AsideKeepsOrderWaiting(s, step, o, deadline);
  }

  /** Such a call ends it, if it is not cut off. */
  lemma SettlingEndsTheWait(st: State, step: Step, o: Order, deadline: Option<int>)
    requires Faithful(st.store, st.pushed) && Enabled(st, step) && Whole(st.store, step)
    requires Waits(st.store, o, deadline) && Settles(Purge(st.store, step.now), step.event, NameOf(o))
    ensures !Waits(Next(st, step).store, o, deadline)
  {
    var s := Purge(st.store, step.now);
    match step.event
    case Push(_, _) =>
      PushLandings(s, step);
      assert EntryFits(Pending(o.id), st.store[Pending(o.id)].value, st.pushed);
    case Approve(id) => ApproveLandings(s, step, id);
    case Reject(id) => RejectLandings(s, step, id);
  }

  // ----- What an index name identifies -----

  /**
   Two pairs share an index entry exactly when they are equal or a colon inside a user id or
   symbol lets one name be cut in two places.
   */
  lemma NamesCoincideExactly(user1: string, symbol1: string, user2: string, symbol2: string)
    ensures IdxName(user1, symbol1) == IdxName(user2, symbol2) <==>
            || (user1 == user2 && symbol1 == symbol2)
            || (exists w :: user2 == IdxName(user1, w) && symbol1 == IdxName(w, symbol2))
            || (exists w :: user1 == IdxName(user2, w) && symbol2 == IdxName(w, symbol1))
  {
    if IdxName(user1, symbol1) == IdxName(user2, symbol2) {
      if |user1| < |user2| {
        ShorterUserIsPrefix(user1, symbol1, user2, symbol2);
      } else if |user2| < |user1| {
        ShorterUserIsPrefix(user2, symbol2, user1, symbol1);
      } else {
        assert user1 == IdxName(user1, symbol1)[..|user1|] == user2;
        assert symbol1 == IdxName(user1, symbol1)[|user1| + 1..] == symbol2;
      }
    }
    forall w | user2 == IdxName(user1, w) && symbol1 == IdxName(w, symbol2)
      ensures IdxName(user1, symbol1) == IdxName(user2, symbol2) {
      assert user1 + ":" + (w + ":" + symbol2) == (user1 + ":" + w) + ":" + symbol2;
    }
    forall w | user1 == IdxName(user2, w) && symbol2 == IdxName(w, symbol1)
      ensures IdxName(user1, symbol1) == IdxName(user2, symbol2) {
      assert user2 + ":" + (w + ":" + symbol1) == (user2 + ":" + w) + ":" + symbol1;
    }
  }

  lemma ShorterUserIsPrefix(user1: string, symbol1: string, user2: string, symbol2: string)
    requires |user1| < |user2| && IdxName(user1, symbol1) == IdxName(user2, symbol2)
    ensures exists w :: user2 == IdxName(user1, w) && symbol1 == IdxName(w, symbol2)
  {
    var name, n, m := IdxName(user1, symbol1), |user1|, |user2|;
    assert name[..n] == user1 && name[n] == ':' && name[n + 1..] == symbol1;
    assert name == user2 + ":" + symbol2;
    assert name[..m] == user2 && name[m] == ':' && name[m + 1..] == symbol2;
    var w := user2[n + 1..];
    assert user2[..n] == user1 && user2[n] == ':' && w == symbol1[..m - n - 1];
    assert symbol1[m - n - 1] == ':' && symbol1[m - n..] == symbol2;
    assert user2 == IdxName(user1, w) && symbol1 == IdxName(w, symbol2);
  }

  /** Without colons in symbols an index name identifies one pair. */
  lemma NamesIdentifyPairs(user1: string, symbol1: string, user2: string, symbol2: string)
    requires ':' !in symbol1 && ':' !in symbol2
    ensures IdxName(user1, symbol1) == IdxName(user2, symbol2) <==> user1 == user2 && symbol1 == symbol2
  {
    NamesCoincideExactly(user1, symbol1, user2, symbol2);
    forall w, s ensures ':' in IdxName(w, s) {
      assert IdxName(w, s)[|w|] == ':';
    }
  }
}
