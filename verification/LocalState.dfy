/**
 The in-memory state client (core/local_state_client.py): values with optional deadlines,
 evicted lazily, only when a later call touches them. Times are milliseconds.
 */
module LocalState {
  import opened Options
  import opened TtlMap

  /** A stored string; Number stands for the strings that `float` reads back. */
  datatype Value = Text(text: string) | Number(number: real)

  /** The two dictionaries `_store` and `_expiries`. */
  datatype Raw = Raw(store: map<string, Value>, expiries: map<string, int>)

  datatype Op =
    | Get(key: string)
    | Set(key: string, value: Value, px: int, nx: bool)   // px 0: no `px` argument
    | Delete(keys: seq<string>)
    | Keys(matching: string -> bool)
    | IncrByFloat(key: string, amount: real)
    | PExpire(key: string, ms: int)

  datatype Reply = Found(value: Option<Value>) | Flag(ok: bool) | Count(n: nat) | Names(names: set<string>)
                 | Total(total: real) | NotANumber

  // ----- Lazy eviction, as coded -----

  predicate IsDue(expiries: map<string, int>, key: string, now: int) {
    key in expiries && now > expiries[key]
  }

  function Evict(raw: Raw, key: string, now: int): Raw {
    if IsDue(raw.expiries, key, now) then Raw(raw.store - {key}, raw.expiries - {key}) else raw
  }

  function EvictAll(raw: Raw, now: int): Raw {
    var due := set k | k in raw.expiries && now > raw.expiries[k];
    Raw(raw.store - due, raw.expiries - due)
  }

  /** `float(value or 0.0)`; the empty string counts as nothing. */
  function AsNumber(value: Option<Value>): Option<real> {
    match value
    case None => Some(0.0)
    case Some(Number(x)) => Some(x)
    case Some(Text(t)) => if t == "" then Some(0.0) else None
  }

  function Lookup<V>(m: map<string, V>, key: string): Option<V> {
    if key in m then Some(m[key]) else None
  }

  function Elements(keys: seq<string>): set<string> {
    set k | k in keys
  }

  lemma ElementsGrow(keys: seq<string>, i: nat)
    requires i < |keys|
    ensures Elements(keys[..i + 1]) == Elements(keys[..i]) + {keys[i]}
  {
    assert keys[..i + 1] == keys[..i] + [keys[i]];
  }

  /** A name that is not stored keeps its deadline, should there be one. */
  function Without(raw: Raw, named: set<string>): Raw {
    var gone := named * raw.store.Keys;
    Raw(raw.store - gone, raw.expiries - gone)
  }

  lemma WithoutOneMore(raw: Raw, named: set<string>, key: string)
    ensures var before, after := Without(raw, named), Without(raw, named + {key});
            if key in before.store then
              && after == Raw(before.store - {key}, before.expiries - {key})
              && |(named + {key}) * raw.store.Keys| == |named * raw.store.Keys| + 1
            else
              after == before && (named + {key}) * raw.store.Keys == named * raw.store.Keys
  {
    var gone := named * raw.store.Keys;
    if key in Without(raw, named).store {
      assert (named + {key}) * raw.store.Keys == gone + {key};
    } else {
      assert (named + {key}) * raw.store.Keys == gone;
    }
  }

  lemma OneMoreKey(raw: Raw, keys: seq<string>, i: nat)
    requires i < |keys|
    ensures var before, after := Without(raw, Elements(keys[..i])), Without(raw, Elements(keys[..i + 1]));
            var removed := keys[i] in before.store;
            && after == (if removed then Raw(before.store - {keys[i]}, before.expiries - {keys[i]}) else before)
            && |Elements(keys[..i + 1]) * raw.store.Keys|
               == |Elements(keys[..i]) * raw.store.Keys| + (if removed then 1 else 0)
  {
    ElementsGrow(keys, i);
    WithoutOneMore(raw, Elements(keys[..i]), keys[i]);
  }

  function LazyState(raw: Raw, op: Op, now: int): Raw {
    match op
    case Get(key) => Evict(raw, key, now)
    case Set(key, value, px, nx) =>
      var r := Evict(raw, key, now);
      if nx && key in r.store then r
      else Raw(r.store[key := value], if px != 0 then r.expiries[key := now + px] else r.expiries)
    case Delete(keys) =>
      Without(raw, Elements(keys))
    case Keys(_) => EvictAll(raw, now)
    case IncrByFloat(key, amount) =>
      var r := Evict(raw, key, now);
      var current := AsNumber(Lookup(r.store, key));
      if current.None? then r else Raw(r.store[key := Number(current.value + amount)], r.expiries)
    case PExpire(key, ms) =>
      var r := Evict(raw, key, now);
      if key in r.store then Raw(r.store, r.expiries[key := now + ms]) else r
  }

  function LazyReply(raw: Raw, op: Op, now: int): Reply {
    match op
    case Get(key) => Found(Lookup(Evict(raw, key, now).store, key))
    case Set(key, _, _, nx) => Flag(!(nx && key in Evict(raw, key, now).store))
    case Delete(keys) => Count(|Elements(keys) * raw.store.Keys|)
    case Keys(matching) => Names(set k | k in EvictAll(raw, now).store && matching(k))
    case IncrByFloat(key, amount) =>
      var current := AsNumber(Lookup(Evict(raw, key, now).store, key));
      if current.None? then NotANumber else Total(current.value + amount)
    case PExpire(key, _) => Flag(key in Evict(raw, key, now).store)
  }

  // ----- The abstract map: an entry is gone the moment its deadline has passed -----

  function EagerState(m: map<string, Cell<Value>>, op: Op, now: int): map<string, Cell<Value>> {
    match op
    case Get(_) => m
    case Set(key, value, px, nx) =>
      if nx && key in m then m else Write(m, key, value, px, now)
    case Delete(keys) => m - Elements(keys)
    case Keys(_) => m
    case IncrByFloat(key, amount) =>
      var current := AsNumber(Read(m, key));
      if current.None? then m
      else Write(m, key, Number(current.value + amount), 0, now)
    case PExpire(key, ms) =>
      Expire(m, key, ms, now)
  }

  function EagerReply(m: map<string, Cell<Value>>, op: Op, now: int): Reply {
    match op
    case Get(key) => Found(Read(m, key))
    case Set(key, _, _, nx) => Flag(!(nx && key in m))
    case Delete(keys) => Count(|Elements(keys) * m.Keys|)
    case Keys(matching) => Names(set k | k in m && matching(k))
    case IncrByFloat(key, amount) =>
      var current := AsNumber(Read(m, key));
      if current.None? then NotANumber else Total(current.value + amount)
    case PExpire(key, _) => Flag(key in m)
  }

  // ----- One call -----

  /** No deadline without a value. */
  ghost predicate WellFormed(raw: Raw) {
    raw.expiries.Keys <= raw.store.Keys
  }

  /** The entries whose deadline has not passed. */
  function Live(raw: Raw, now: int): map<string, Cell<Value>> {
    map k | k in raw.store && !IsDue(raw.expiries, k, now) :: Cell(raw.store[k], Lookup(raw.expiries, k))
  }

  lemma LiveLater(raw: Raw, t: int, now: int)
    requires t <= now
    ensures Live(raw, now) == Purge(Live(raw, t), now)
  {
  }

  lemma EvictIsInvisible(raw: Raw, key: string, now: int)
    requires WellFormed(raw)
    ensures var r := Evict(raw, key, now);
            && WellFormed(r) && Live(r, now) == Live(raw, now)
            && (key in r.store <==> key in Live(raw, now))
            && (key in r.store ==> Live(raw, now)[key] == Cell(r.store[key], Lookup(r.expiries, key)))
            && !IsDue(r.expiries, key, now)
  {
  }

  /** The entries left behind although their deadline has passed. */
  function Leftovers(raw: Raw, now: int): set<string> {
    raw.store.Keys - Live(raw, now).Keys
  }

  /** Replies agree; only a delete also counts the leftovers it removes. */
  ghost predicate SameReply(raw: Raw, op: Op, now: int, lazy: Reply, eager: Reply) {
    match op
    case Delete(keys) =>
      lazy.Count? && eager.Count? && lazy.n == eager.n + |Elements(keys) * Leftovers(raw, now)|
    case _ => lazy == eager
  }

  lemma StatesAgree(raw: Raw, op: Op, now: int)
    requires WellFormed(raw)
    ensures WellFormed(LazyState(raw, op, now))
    ensures Live(LazyState(raw, op, now), now) == Purge(EagerState(Live(raw, now), op, now), now)
  {
    match op
    case Get(key) => EvictIsInvisible(raw, key, now); LiveLater(raw, now, now);
    case Set(key, value, px, nx) => SetAgrees(raw, key, value, px, nx, now);
    case Delete(keys) => RemovedFromBoth(raw, Elements(keys), now);
    case Keys(_) => EvictAllAgrees(raw, now);
    case IncrByFloat(key, amount) => IncrAgrees(raw, key, amount, now);
    case PExpire(key, ms) => PExpireAgrees(raw, key, ms, now);
  }

  lemma KeysAgree(raw: Raw, matching: string -> bool, now: int)
    requires WellFormed(raw)
    ensures LazyReply(raw, Keys(matching), now) == EagerReply(Live(raw, now), Keys(matching), now)
  {
    assert forall k :: k in EvictAll(raw, now).store <==> k in Live(raw, now);
  }

  lemma RepliesAgree(raw: Raw, op: Op, now: int)
    requires WellFormed(raw)
    ensures SameReply(raw, op, now, LazyReply(raw, op, now), EagerReply(Live(raw, now), op, now))
  {
    match op
    case Get(key) => EvictIsInvisible(raw, key, now);
    case Set(key, _, _, _) => EvictIsInvisible(raw, key, now);
    case Delete(keys) => SplitCount(Elements(keys), raw.store.Keys, Live(raw, now).Keys);
    case Keys(matching) => KeysAgree(raw, matching, now);
    case IncrByFloat(key, _) => EvictIsInvisible(raw, key, now);
    case PExpire(key, _) => EvictIsInvisible(raw, key, now);
  }

  lemma SetAgrees(raw: Raw, key: string, value: Value, px: int, nx: bool, now: int)
    requires WellFormed(raw)
    ensures var op := Set(key, value, px, nx);
            && WellFormed(LazyState(raw, op, now))
            && Live(LazyState(raw, op, now), now) == Purge(EagerState(Live(raw, now), op, now), now)
  {
    EvictIsInvisible(raw, key, now);
    var a, b := Live(LazyState(raw, Set(key, value, px, nx), now), now), Purge(EagerState(Live(raw, now), Set(key, value, px, nx), now), now);
    forall k ensures (k in a <==> k in b) && (k in a ==> a[k] == b[k]) {
      OtherKeyKept(raw, key, k, now);
    }
  }

  lemma OtherKeyKept(raw: Raw, key: string, k: string, now: int)
    ensures k != key ==>
              && Lookup(Evict(raw, key, now).store, k) == Lookup(raw.store, k)
              && Lookup(Evict(raw, key, now).expiries, k) == Lookup(raw.expiries, k)
  {
  }

  lemma RemovedFromBoth(raw: Raw, named: set<string>, now: int)
    requires WellFormed(raw)
    ensures var next := Without(raw, named);
            WellFormed(next) && Live(next, now) == Purge(Live(raw, now) - named, now)
  {
    var next := Without(raw, named);
    assert forall k | k !in named :: Lookup(next.store, k) == Lookup(raw.store, k);
    assert forall k | k !in named :: Lookup(next.expiries, k) == Lookup(raw.expiries, k);
  }

  lemma SplitCount<T>(named: set<T>, all: set<T>, live: set<T>)
    requires live <= all
    ensures |named * all| == |named * live| + |named * (all - live)|
  {
    assert named * all == named * live + named * (all - live);
    assert (named * live) !! (named * (all - live));
  }

  lemma EvictAllAgrees(raw: Raw, now: int)
    requires WellFormed(raw)
    ensures WellFormed(EvictAll(raw, now)) && Live(EvictAll(raw, now), now) == Purge(Live(raw, now), now)
  {
  }

  lemma IncrAgrees(raw: Raw, key: string, amount: real, now: int)
    requires WellFormed(raw)
    ensures var op := IncrByFloat(key, amount);
            && WellFormed(LazyState(raw, op, now))
            && Live(LazyState(raw, op, now), now) == Purge(EagerState(Live(raw, now), op, now), now)
  {
    EvictIsInvisible(raw, key, now);
    var r := Evict(raw, key, now);
    LiveLater(r, now, now);
    var current := AsNumber(Lookup(r.store, key));
    if current.Some? {
      WriteAgrees(r, key, Number(current.value + amount), now);
    }
  }

  lemma PExpireAgrees(raw: Raw, key: string, ms: int, now: int)
    requires WellFormed(raw)
    ensures var op := PExpire(key, ms);
            && WellFormed(LazyState(raw, op, now))
            && Live(LazyState(raw, op, now), now) == Purge(EagerState(Live(raw, now), op, now), now)
  {
    EvictIsInvisible(raw, key, now);
    var r := Evict(raw, key, now);
    if key in r.store {
      DeadlineAgrees(r, key, now + ms, now);
    } else {
      LiveLater(r, now, now);
    }
  }

  lemma WriteAgrees(r: Raw, key: string, value: Value, now: int)
    requires WellFormed(r) && !IsDue(r.expiries, key, now)
    ensures Live(Raw(r.store[key := value], r.expiries), now) == Purge(Write(Live(r, now), key, value, 0, now), now)
  {
  }

  lemma DeadlineAgrees(r: Raw, key: string, deadline: int, now: int)
    requires WellFormed(r) && !IsDue(r.expiries, key, now) && key in r.store
    ensures Live(Raw(r.store, r.expiries[key := deadline]), now) ==
            Purge(Live(r, now)[key := Cell(r.store[key], Some(deadline))], now)
  {
  }

  // ----- Whole runs -----

  datatype Call = Call(op: Op, now: int)

  function LazyAfter(raw: Raw, calls: seq<Call>): Raw {
    var n := |calls|;
    if n == 0 then raw else LazyState(LazyAfter(raw, calls[..n - 1]), calls[n - 1].op, calls[n - 1].now)
  }

  /** The abstract map purges at every instant; seen from the calls, at each call. */
  function EagerAfter(m: map<string, Cell<Value>>, calls: seq<Call>): map<string, Cell<Value>> {
    var n := |calls|;
    if n == 0 then m
    else EagerState(Purge(EagerAfter(m, calls[..n - 1]), calls[n - 1].now), calls[n - 1].op, calls[n - 1].now)
  }

  ghost predicate Monotone(calls: seq<Call>) {
    forall i, j | 0 <= i < j < |calls| :: calls[i].now <= calls[j].now
  }

  lemma StepHoldsTheSame(raw: Raw, m: map<string, Cell<Value>>, call: Call, now: int)
    requires WellFormed(raw) && Live(raw, call.now) == Purge(m, call.now) && call.now <= now
    ensures WellFormed(LazyState(raw, call.op, call.now))
    ensures Live(LazyState(raw, call.op, call.now), now) == Purge(EagerState(Purge(m, call.now), call.op, call.now), now)
  {
    StatesAgree(raw, call.op, call.now);
    var next, abstractly := LazyState(raw, call.op, call.now), EagerState(Purge(m, call.now), call.op, call.now);
    LiveLater(next, call.now, now);
    PurgeTwice(abstractly, call.now, now);
  }

  lemma EarlierCalls(calls: seq<Call>, i: nat)
    requires Monotone(calls) && i < |calls|
    ensures Monotone(calls[..i]) && forall c | c in calls[..i] :: c.now <= calls[i].now
  {
    forall c | c in calls[..i] ensures c.now <= calls[i].now {
      var j :| 0 <= j < i && calls[j] == c;
    }
  }

  /** Just before any call of a run the two stores hold the same live entries. */
  lemma {:induction false} RunsHoldTheSame(calls: seq<Call>, now: int)
    requires Monotone(calls) && forall c | c in calls :: c.now <= now
    ensures WellFormed(LazyAfter(Raw(map[], map[]), calls))
    ensures Live(LazyAfter(Raw(map[], map[]), calls), now) == Purge(EagerAfter(map[], calls), now)
    decreases |calls|
  {
    var n := |calls|;
    if n > 0 {
      EarlierCalls(calls, n - 1);
      RunsHoldTheSame(calls[..n - 1], calls[n - 1].now);
      assert calls[n - 1] in calls;
      StepHoldsTheSame(LazyAfter(Raw(map[], map[]), calls[..n - 1]), EagerAfter(map[], calls[..n - 1]), calls[n - 1], now);
    }
  }

  /**
   Lazy eviction is invisible: in every run with a monotone clock each call replies what the
   abstract map replies, except that a delete also counts the expired entries it clears away.
   */
  lemma LazyEvictionIsInvisible(calls: seq<Call>, i: nat)
    requires Monotone(calls) && i < |calls|
    ensures var raw, m := LazyAfter(Raw(map[], map[]), calls[..i]), EagerAfter(map[], calls[..i]);
            var now, op := calls[i].now, calls[i].op;
            SameReply(raw, op, now, LazyReply(raw, op, now), EagerReply(Purge(m, now), op, now))
  {
    EarlierCalls(calls, i);
    RunsHoldTheSame(calls[..i], calls[i].now);
    RepliesAgree(LazyAfter(Raw(map[], map[]), calls[..i]), calls[i].op, calls[i].now);
  }

  // ----- The client -----

  class LocalStateClient {
    var store: map<string, Value>
    var expiries: map<string, int>

    ghost function Contents(): Raw
      reads this
    {
      Raw(store, expiries)
    }

    constructor ()
      ensures Contents() == Raw(map[], map[])
    {
      store, expiries := map[], map[];
    }

    method EvictExpired(key: string, now: int)
      modifies this
      ensures Contents() == Evict(old(Contents()), key, now)
    {
      if key in expiries && now > expiries[key] {
        store := store - {key};
        expiries := expiries - {key};
      }
    }

    method Get(key: string, now: int) returns (value: Option<Value>)
      modifies this
      ensures Contents() == LazyState(old(Contents()), Op.Get(key), now)
      ensures Found(value) == LazyReply(old(Contents()), Op.Get(key), now)
    {
      EvictExpired(key, now);
      value := Lookup(store, key);
    }

    method Set(key: string, value: Value, px: int, nx: bool, now: int) returns (ok: bool)
      modifies this
      ensures Contents() == LazyState(old(Contents()), Op.Set(key, value, px, nx), now)
      ensures Flag(ok) == LazyReply(old(Contents()), Op.Set(key, value, px, nx), now)
    {
      EvictExpired(key, now);
      if nx && key in store {
        return false;
      }
      store := store[key := value];
      if px != 0 {
        expiries := expiries[key := now + px];
      }
      ok := true;
    }

    method DeleteOne(key: string) returns (removed: bool)
      modifies this
      ensures removed == (key in old(store))
      ensures Contents() == if removed then Raw(old(store) - {key}, old(expiries) - {key}) else old(Contents())
    {
      removed := key in store;
      if removed {
        store := store - {key};
        expiries := expiries - {key};
      }
    }

    method Delete(keys: seq<string>, now: int) returns (count: nat)
      modifies this
      ensures Contents() == LazyState(old(Contents()), Op.Delete(keys), now)
      ensures Count(count) == LazyReply(old(Contents()), Op.Delete(keys), now)
    {
      count := 0;
      ghost var before := Contents();
      assert Contents() == Without(before, Elements(keys[..0]));
      for i := 0 to |keys|
        invariant Contents() == Without(before, Elements(keys[..i]))
        invariant count == |Elements(keys[..i]) * before.store.Keys|
      {
        OneMoreKey(before, keys, i);
        var removed := DeleteOne(keys[i]);
        if removed {
          count := count + 1;
        }
      }
      assert keys[..|keys|] == keys;
    }

    method Keys(matching: string -> bool, now: int) returns (names: set<string>)
      modifies this
      ensures Contents() == LazyState(old(Contents()), Op.Keys(matching), now)
      ensures Names(names) == LazyReply(old(Contents()), Op.Keys(matching), now)
    {
      var due := set k | k in expiries && now > expiries[k];
      store := store - due;
      expiries := expiries - due;
      names := set k | k in store && matching(k);
    }

    method IncrByFloat(key: string, amount: real, now: int) returns (total: Option<real>)
      modifies this
      ensures Contents() == LazyState(old(Contents()), Op.IncrByFloat(key, amount), now)
      ensures LazyReply(old(Contents()), Op.IncrByFloat(key, amount), now) ==
              if total.Some? then Total(total.value) else NotANumber
    {
      EvictExpired(key, now);
      var value := AsNumber(Lookup(store, key));
      if value.None? {
        return None;
      }
      store := store[key := Number(value.value + amount)];
      total := Some(value.value + amount);
    }

    method PExpire(key: string, ms: int, now: int) returns (ok: bool)
      modifies this
      ensures Contents() == LazyState(old(Contents()), Op.PExpire(key, ms), now)
      ensures Flag(ok) == LazyReply(old(Contents()), Op.PExpire(key, ms), now)
    {
      EvictExpired(key, now);
      if key !in store {
        return false;
      }
      expiries := expiries[key := now + ms];
      ok := true;
    }
  }
}
