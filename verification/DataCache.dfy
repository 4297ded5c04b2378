/**
 The bounded price cache (core/data_provider.py): an ordered dictionary that keeps one entry per
 symbol and look-back, forgets the oldest write first, and never answers differently from an
 unbounded dictionary.
 */
module DataCache {
  import opened Options

  // ----- Keys: symbol_date_days, split at the last two underscores -----

  datatype Parts = Parts(symbol: string, date: string, days: string)

  /** The position of the last underscore, or -1. */
  function LastUnderscore(s: string): (i: int)
    ensures -1 <= i < |s|
  {
    var n := |s|;
    if n == 0 then -1 else if s[n - 1] == '_' then n - 1 else LastUnderscore(s[..n - 1])
  }

  /** `rsplit("_", 2)` where it yields three parts. */
  function Split(key: string): Option<Parts> {
    var i := LastUnderscore(key);
    if i < 0 then None
    else
      var j := LastUnderscore(key[..i]);
      if j < 0 then None else Some(Parts(key[..j], key[j + 1..i], key[i + 1..]))
  }

  /** The first part of `rsplit("_", 2)`, however many there are. */
  function Head(key: string): string {
    var i := LastUnderscore(key);
    if i < 0 then key
    else
      var j := LastUnderscore(key[..i]);
      if j < 0 then key[..i] else key[..j]
  }

  function Key(p: Parts): string {
    p.symbol + "_" + p.date + "_" + p.days
  }

  /** Dates and day counts hold no underscore; symbols may. */
  predicate WellFormed(p: Parts) {
    '_' !in p.date && '_' !in p.days
  }

  lemma {:induction false} UnderscoreAt(a: string, b: string)
    requires '_' !in b
    ensures LastUnderscore(a + "_" + b) == |a|
    decreases |b|
  {
    var s, m := a + "_" + b, |b|;
    if m > 0 {
      UnderscoreAt(a, b[..m - 1]);
      assert s[..|s| - 1] == a + "_" + b[..m - 1];
      assert s[|s| - 1] == b[m - 1] && b[m - 1] in b;
    }
  }

  /** The parts come back, even when the symbol contains underscores. */
  lemma KeySplitsBack(p: Parts)
    requires WellFormed(p)
    ensures Split(Key(p)) == Some(p) && Head(Key(p)) == p.symbol
  {
    var front := p.symbol + "_" + p.date;
    UnderscoreAt(front, p.days);
    UnderscoreAt(p.symbol, p.date);
    var key := Key(p);
    assert key == front + "_" + p.days;
    assert key[..|front|] == front && key[|front| + 1..] == p.days;
    assert front[..|p.symbol|] == p.symbol && key[|p.symbol| + 1..|front|] == p.date;
    assert key[..|p.symbol|] == p.symbol;
  }

  predicate EndsWith(s: string, tail: string) {
    |tail| <= |s| && s[|s| - |tail|..] == tail
  }

  lemma UnderscoreParts(front: string, days: string)
    ensures front + ("_" + days) == front + "_" + days
    ensures (front + "_" + days)[|front|..] == "_" + days && (front + "_" + days)[|front| + 1..] == days
  {
  }

  lemma TailIsAfterUnderscore(key: string, days: string)
    requires EndsWith(key, "_" + days) && '_' !in days
    ensures LastUnderscore(key) == |key| - |days| - 1 && key[LastUnderscore(key) + 1..] == days
  {
    var front, tail := key[..|key| - |days| - 1], key[|key| - |days| - 1..];
    UnderscoreAt(front, days);
    UnderscoreParts(front, days);
    assert key == front + tail && tail == "_" + days;
  }

  lemma EndsWithDaysExactly(p: Parts, days: string)
    requires WellFormed(p) && '_' !in days
    ensures EndsWith(Key(p), "_" + days) <==> p.days == days
  {
    var key, front := Key(p), p.symbol + "_" + p.date;
    assert key == front + "_" + p.days;
    UnderscoreAt(front, p.days);
    UnderscoreParts(front, p.days);
    if EndsWith(key, "_" + days) {
      TailIsAfterUnderscore(key, days);
    }
  }

  // ----- Writing -----

  datatype Entry<V> = Entry(key: string, value: V)

  /** Another date of the same symbol and look-back, as the source tests it. */
  predicate Stale(k: string, key: string) {
    match Split(key)
    case None => false
    case Some(p) => k != key && EndsWith(k, "_" + p.days) && Head(k) == p.symbol
  }

  function Fresh<V>(cache: seq<Entry<V>>, key: string): seq<Entry<V>> {
    var n := |cache|;
    if n == 0 then []
    else if Stale(cache[n - 1].key, key) || cache[n - 1].key == key then Fresh(cache[..n - 1], key)
    else Fresh(cache[..n - 1], key) + [cache[n - 1]]
  }

  function Newest<V>(cache: seq<Entry<V>>, count: nat): seq<Entry<V>> {
    if |cache| <= count then cache else cache[|cache| - count..]
  }

  function Written<V>(cache: seq<Entry<V>>, e: Entry<V>, maxsize: nat): seq<Entry<V>> {
    Newest(Fresh(cache, e.key) + [e], maxsize)
  }

  // ----- Histories of writes -----

  datatype Write<V> = Write(parts: Parts, value: V)

  function EntryOf<V>(w: Write<V>): Entry<V> {
    Entry(Key(w.parts), w.value)
  }

  function After<V>(writes: seq<Write<V>>, maxsize: nat): seq<Entry<V>> {
    var n := |writes|;
    if n == 0 then [] else Written(After(writes[..n - 1], maxsize), EntryOf(writes[n - 1]), maxsize)
  }

  predicate SameSeries(a: Parts, b: Parts) {
    a.symbol == b.symbol && a.days == b.days
  }

  function Others<V>(writes: seq<Write<V>>, p: Parts): seq<Write<V>> {
    var n := |writes|;
    if n == 0 then []
    else if SameSeries(writes[n - 1].parts, p) then Others(writes[..n - 1], p)
    else Others(writes[..n - 1], p) + [writes[n - 1]]
  }

  /** The last write of every symbol and look-back, in the order of writing; nothing is bounded here. */
  function Latest<V>(writes: seq<Write<V>>): seq<Write<V>> {
    var n := |writes|;
    if n == 0 then [] else Others(Latest(writes[..n - 1]), writes[n - 1].parts) + [writes[n - 1]]
  }

  function Entries<V>(writes: seq<Write<V>>): (es: seq<Entry<V>>)
    ensures |es| == |writes| && forall i | 0 <= i < |es| :: es[i] == EntryOf(writes[i])
  {
    seq(|writes|, i requires 0 <= i < |writes| => EntryOf(writes[i]))
  }

  ghost predicate AllWellFormed<V>(writes: seq<Write<V>>) {
    forall w | w in writes :: WellFormed(w.parts)
  }

  /** No two writes of the same series. */
  ghost predicate OnePerSeries<V>(writes: seq<Write<V>>) {
    forall i, j | 0 <= i < j < |writes| :: !SameSeries(writes[i].parts, writes[j].parts)
  }

  lemma StaleExactly(p: Parts, q: Parts)
    requires WellFormed(p) && WellFormed(q)
    ensures Stale(Key(p), Key(q)) || Key(p) == Key(q) <==> SameSeries(p, q)
  {
    KeySplitsBack(p);
    KeySplitsBack(q);
    EndsWithDaysExactly(p, q.days);
  }

  lemma {:induction false} FreshIsOthers<V>(writes: seq<Write<V>>, p: Parts)
    requires AllWellFormed(writes) && WellFormed(p)
    ensures Fresh(Entries(writes), Key(p)) == Entries(Others(writes, p))
    decreases |writes|
  {
    var n := |writes|;
    if n > 0 {
      FreshIsOthers(writes[..n - 1], p);
      assert Entries(writes)[..n - 1] == Entries(writes[..n - 1]);
      assert writes[n - 1] in writes;
      StaleExactly(writes[n - 1].parts, p);
    }
  }

  lemma {:induction false} OthersFacts<V>(writes: seq<Write<V>>, p: Parts)
    requires OnePerSeries(writes)
    ensures var rest := Others(writes, p);
            && |writes| - 1 <= |rest| <= |writes|
            && (forall w | w in rest :: w in writes && !SameSeries(w.parts, p))
            && OnePerSeries(rest)
            && (|rest| == |writes| ==> rest == writes)
    decreases |writes|
  {
    var n := |writes|;
    if n > 0 {
      OthersFacts(writes[..n - 1], p);
      if SameSeries(writes[n - 1].parts, p) {
        NoneToDrop(writes[..n - 1], p);
      }
    }
  }

  lemma {:induction false} NoneToDrop<V>(writes: seq<Write<V>>, p: Parts)
    requires forall i | 0 <= i < |writes| :: !SameSeries(writes[i].parts, p)
    ensures Others(writes, p) == writes
    decreases |writes|
  {
    var n := |writes|;
    if n > 0 {
      NoneToDrop(writes[..n - 1], p);
    }
  }

  lemma {:induction false} OthersOfConcat<V>(a: seq<Write<V>>, b: seq<Write<V>>, p: Parts)
    ensures Others(a + b, p) == Others(a, p) + Others(b, p)
    decreases |b|
  {
    var m := |b|;
    if m == 0 {
      assert a + b == a;
    } else {
      OthersOfConcat(a, b[..m - 1], p);
      assert (a + b)[..|a + b| - 1] == a + b[..m - 1];
    }
  }

  function Tail<V>(writes: seq<Write<V>>, count: nat): seq<Write<V>> {
    if |writes| <= count then writes else writes[|writes| - count..]
  }

  lemma TailOfConcat<V>(a: seq<Write<V>>, b: seq<Write<V>>, w: Write<V>, count: nat)
    requires count <= |b| + 1
    ensures Tail((a + b) + [w], count) == Tail(b + [w], count)
  {
    assert (a + b) + [w] == a + (b + [w]);
  }

  lemma SuffixOnePerSeries<V>(writes: seq<Write<V>>, i: nat)
    requires OnePerSeries(writes) && i <= |writes|
    ensures OnePerSeries(writes[i..])
  {
  }

  /** Bounding before and after a write leaves the same newest entries: a write drops at most one. */
  lemma TailAfterWrite<V>(all: seq<Write<V>>, w: Write<V>, maxsize: nat)
    requires OnePerSeries(all) && 1 <= maxsize
    ensures Tail(Others(Tail(all, maxsize), w.parts) + [w], maxsize) == Tail(Others(all, w.parts) + [w], maxsize)
  {
    if |all| > maxsize {
      var past, kept := all[..|all| - maxsize], all[|all| - maxsize..];
      SuffixOnePerSeries(all, |all| - maxsize);
      OthersFacts(kept, w.parts);
      var rest := Others(kept, w.parts);
      assert all == past + kept;
      OthersOfConcat(past, kept, w.parts);
      TailOfConcat(Others(past, w.parts), rest, w, maxsize);
    }
  }

  lemma LatestStep<V>(before: seq<Write<V>>, rest: seq<Write<V>>, w: Write<V>)
    requires OnePerSeries(rest) && AllWellFormed(before) && WellFormed(w.parts)
    requires forall r | r in rest :: r in before && !SameSeries(r.parts, w.parts)
    ensures OnePerSeries(rest + [w]) && AllWellFormed(rest + [w])
    ensures forall r | r in rest + [w] :: r in before + [w]
  {
    forall i | 0 <= i < |rest| ensures !SameSeries(rest[i].parts, w.parts) {
      assert rest[i] in rest;
    }
  }

  lemma {:induction false} LatestFacts<V>(writes: seq<Write<V>>)
    requires AllWellFormed(writes)
    ensures OnePerSeries(Latest(writes)) && AllWellFormed(Latest(writes))
    ensures forall w | w in Latest(writes) :: w in writes
    decreases |writes|
  {
    var n := |writes|;
    if n > 0 {
      LatestFacts(writes[..n - 1]);
      OthersFacts(Latest(writes[..n - 1]), writes[n - 1].parts);
      LatestStep(writes[..n - 1], Others(Latest(writes[..n - 1]), writes[n - 1].parts), writes[n - 1]);
      assert writes == writes[..n - 1] + [writes[n - 1]];
    }
  }

  lemma EntriesOfTail<V>(writes: seq<Write<V>>, count: nat)
    ensures Entries(Tail(writes, count)) == Newest(Entries(writes), count)
  {
  }

  /**
   After any writes the cache is exactly the newest `maxsize` of the last writes per symbol and
   look-back, in the order of writing.
   */
  lemma {:induction false} CacheIsNewestOfLatest<V>(writes: seq<Write<V>>, maxsize: nat)
    requires AllWellFormed(writes) && 1 <= maxsize
    ensures After(writes, maxsize) == Entries(Tail(Latest(writes), maxsize))
    decreases |writes|
  {
    var n := |writes|;
    if n > 0 {
      var before, w := writes[..n - 1], writes[n - 1];
      CacheIsNewestOfLatest(before, maxsize);
      LatestFacts(before);
      WriteKeepsNewest(Latest(before), w, maxsize);
    }
  }

  lemma WriteKeepsNewest<V>(all: seq<Write<V>>, w: Write<V>, maxsize: nat)
    requires OnePerSeries(all) && AllWellFormed(all) && WellFormed(w.parts) && 1 <= maxsize
    ensures Written(Entries(Tail(all, maxsize)), EntryOf(w), maxsize) == Entries(Tail(Others(all, w.parts) + [w], maxsize))
  {
    var kept := Tail(all, maxsize);
    FreshIsOthers(kept, w.parts);
    assert Entries(Others(kept, w.parts)) + [EntryOf(w)] == Entries(Others(kept, w.parts) + [w]);
    EntriesOfTail(Others(kept, w.parts) + [w], maxsize);
    TailAfterWrite(all, w, maxsize);
  }

  // ----- What a reader gets -----

  /** What an unbounded dictionary would return. */
  function Unbounded<V>(writes: seq<Write<V>>, key: string): Option<V> {
    var n := |writes|;
    if n == 0 then None
    else if Key(writes[n - 1].parts) == key then Some(writes[n - 1].value)
    else Unbounded(writes[..n - 1], key)
  }

  lemma {:induction false} LatestIsUnbounded<V>(writes: seq<Write<V>>, w: Write<V>)
    requires AllWellFormed(writes) && w in Latest(writes)
    ensures Unbounded(writes, Key(w.parts)) == Some(w.value)
    decreases |writes|
  {
    var n := |writes|;
    var before, last := writes[..n - 1], writes[n - 1];
    LatestFacts(before);
    OthersFacts(Latest(before), last.parts);
    if w in Others(Latest(before), last.parts) {
      LatestIsUnbounded(before, w);
      assert w in writes && last in writes;
      KeySplitsBack(w.parts);
      KeySplitsBack(last.parts);
    }
  }

  /** Every hit is what an unbounded dictionary would return, and the newest write is always a hit. */
  lemma HitsAreExact<V>(writes: seq<Write<V>>, maxsize: nat)
    requires AllWellFormed(writes) && 1 <= maxsize
    ensures var cache := After(writes, maxsize);
            && |cache| <= maxsize
            && (forall e | e in cache :: Unbounded(writes, e.key) == Some(e.value))
            && (writes != [] ==> EntryOf(writes[|writes| - 1]) in cache)
  {
    CacheIsNewestOfLatest(writes, maxsize);
    var kept := Tail(Latest(writes), maxsize);
    forall e | e in After(writes, maxsize) ensures Unbounded(writes, e.key) == Some(e.value) {
      var i :| 0 <= i < |kept| && EntryOf(kept[i]) == e;
      assert kept[i] in Latest(writes);
      LatestIsUnbounded(writes, kept[i]);
    }
    if writes != [] {
      assert kept[|kept| - 1] == writes[|writes| - 1];
      assert Entries(kept)[|kept| - 1] == EntryOf(writes[|writes| - 1]);
    }
  }

  // ----- The cache object -----

  class BoundedDataCache<V> {
    const maxsize: nat
    var entries: seq<Entry<V>>

    constructor (maxsize: int)
      ensures this.maxsize >= 1 && (maxsize >= 1 ==> this.maxsize == maxsize) && entries == []
    {
      this.maxsize := if maxsize < 1 then 1 else maxsize;
      entries := [];
    }

    method DropStaleAndOwn(key: string)
      modifies this
      ensures entries == Fresh(old(entries), key)
    {
      var kept: seq<Entry<V>> := [];
      for i := 0 to |entries|
        invariant entries == old(entries)
        invariant kept == Fresh(entries[..i], key)
      {
        assert entries[..i + 1][..i] == entries[..i];
        if !Stale(entries[i].key, key) && entries[i].key != key {
          kept := kept + [entries[i]];
        }
      }
      assert entries[..|entries|] == entries;
      entries := kept;
    }

    method Set(key: string, value: V)
      modifies this
      ensures entries == Written(old(entries), Entry(key, value), maxsize)
    {
      DropStaleAndOwn(key);
      entries := entries + [Entry(key, value)];
      ghost var full := entries;
      while |entries| > maxsize
        invariant |entries| <= |full| && entries == full[|full| - |entries|..]
        invariant |full| > maxsize ==> |entries| >= maxsize
        invariant |full| <= maxsize ==> entries == full
      {
        entries := entries[1..];
      }
    }
  }
}
