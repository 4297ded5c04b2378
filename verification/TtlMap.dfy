/**
 A map whose entries vanish the moment their deadline has passed. LocalState proves that the
 lazily evicting client is this map to every caller; the queue, the day counter, the lease notes
 and the kill switch are modelled on top of it. Times are milliseconds.
 */
module TtlMap {
  import opened Options

  datatype Cell<V> = Cell(value: V, deadline: Option<int>)

  predicate Lives<V>(c: Cell<V>, now: int) {
    c.deadline.Some? ==> now <= c.deadline.value
  }

  function Purge<K, V>(m: map<K, Cell<V>>, now: int): map<K, Cell<V>> {
    map k | k in m && Lives(m[k], now) :: m[k]
  }

  lemma PurgeTwice<K, V>(m: map<K, Cell<V>>, t: int, now: int)
    requires t <= now
    ensures Purge(Purge(m, t), now) == Purge(m, now)
  {
  }

  function Read<K, V>(m: map<K, Cell<V>>, key: K): Option<V> {
    if key in m then Some(m[key].value) else None
  }

  /** `set`: without a time to live (`px` 0) an earlier deadline stays. */
  function Write<K, V>(m: map<K, Cell<V>>, key: K, value: V, px: int, now: int): map<K, Cell<V>> {
    var kept := if key in m then m[key].deadline else None;
    m[key := Cell(value, if px != 0 then Some(now + px) else kept)]
  }

  /** `pexpire` on an existing key. */
  function Expire<K, V>(m: map<K, Cell<V>>, key: K, ms: int, now: int): map<K, Cell<V>> {
    if key in m then m[key := Cell(m[key].value, Some(now + ms))] else m
  }
}
