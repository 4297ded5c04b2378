/**
 What the in-memory state client keeps and for how long (core/local_state_client.py), call by call:
 values until their deadline, counters that add up, and text that is no number.
 */
module StoreMeaning {
  import opened Options
  import opened TtlMap
  import opened LocalState

  /** A value is there until its own deadline has passed, whatever an expired entry left behind. */
  lemma ValueLivesUntilItsDeadline(raw: Raw, key: string, value: Value, px: int, now: int, later: int)
    requires WellFormed(raw) && px != 0
    ensures var set_ := LazyState(raw, Set(key, value, px, false), now);
            LazyReply(set_, Get(key), later) == Found(if later <= now + px then Some(value) else None)
  {
  }

  /** A value written without a time to live keeps the deadline that a live entry had, and has none otherwise. */
  lemma ValueWithoutTimeToLive(raw: Raw, key: string, value: Value, now: int, later: int)
    requires WellFormed(raw) && now <= later
    ensures var set_ := LazyState(raw, Set(key, value, 0, false), now);
            var kept := key in raw.store && key in raw.expiries && now <= raw.expiries[key];
            LazyReply(set_, Get(key), later) == Found(if kept && raw.expiries[key] < later then None else Some(value))
  {
  }

  /** A write that asks for a new key succeeds exactly when none is live, and otherwise changes no value. */
  lemma SetIfAbsentExactly(raw: Raw, key: string, value: Value, px: int, now: int)
    requires WellFormed(raw) && px >= 0
    ensures var live := key in raw.store && (key in raw.expiries ==> now <= raw.expiries[key]);
            var next := LazyState(raw, Set(key, value, px, true), now);
            && LazyReply(raw, Set(key, value, px, true), now) == Flag(!live)
            && LazyReply(next, Get(key), now) == Found(Some(if live then raw.store[key] else value))
  {
  }

  /**
   An increment adds to the live number, to nothing if there is none or it is empty, and the sum is what is
   read back; on other text it raises and leaves the text.
   */
  lemma IncrementExactly(raw: Raw, key: string, amount: real, now: int)
    requires WellFormed(raw)
    ensures var live := key in raw.store && (key in raw.expiries ==> now <= raw.expiries[key]);
            var next, reply := LazyState(raw, IncrByFloat(key, amount), now), LazyReply(raw, IncrByFloat(key, amount), now);
            && (!live || raw.store[key] == Text("") ==> reply == Total(amount) && LazyReply(next, Get(key), now) == Found(Some(Number(amount))))
            && (forall x | live && raw.store[key] == Number(x) ::
                  reply == Total(x + amount) && LazyReply(next, Get(key), now) == Found(Some(Number(x + amount))))
            && (forall t | live && raw.store[key] == Text(t) && t != "" ::
                  reply == NotANumber && LazyReply(next, Get(key), now) == Found(Some(Text(t))))
  {
  }

  /** A deadline set on a live key is the one it dies at. */
  lemma ExpiryExactly(raw: Raw, key: string, ms: int, now: int, later: int)
    requires WellFormed(raw) && ms >= 0
    ensures var live := key in raw.store && (key in raw.expiries ==> now <= raw.expiries[key]);
            var next := LazyState(raw, PExpire(key, ms), now);
            && LazyReply(raw, PExpire(key, ms), now) == Flag(live)
            && (live ==> LazyReply(next, Get(key), later) == Found(if later <= now + ms then Some(raw.store[key]) else None))
  {
  }

  function Sum(amounts: seq<real>): real {
    var n := |amounts|;
    if n == 0 then 0.0 else Sum(amounts[..n - 1]) + amounts[n - 1]
  }

  function Increments(key: string, amounts: seq<real>, now: int): seq<Call> {
    seq(|amounts|, i requires 0 <= i < |amounts| => Call(IncrByFloat(key, amounts[i]), now))
  }

  /** A counter that starts from nothing reads the sum of all its increments. */
  lemma {:induction false} CounterAddsUp(key: string, amounts: seq<real>, now: int)
    requires amounts != []
    ensures var raw := LazyAfter(Raw(map[], map[]), Increments(key, amounts, now));
            WellFormed(raw) && key !in raw.expiries && key in raw.store && raw.store[key] == Number(Sum(amounts))
    decreases |amounts|
  {
    var n := |amounts|;
    var calls := Increments(key, amounts, now);
    assert calls[..n - 1] == Increments(key, amounts[..n - 1], now);
    if n > 1 {
      CounterAddsUp(key, amounts[..n - 1], now);
    } else {
      assert LazyAfter(Raw(map[], map[]), calls[..0]) == Raw(map[], map[]);
      assert Sum(amounts[..0]) == 0.0;
    }
  }
}
