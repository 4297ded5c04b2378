/**
 How long a write stays in the price cache (core/data_provider.py): until enough other series have been
 written after it, and no longer.
 */
module CacheMeaning {
  import opened DataCache

  type Series = (string, string)

  function SeriesOf(p: Parts): Series {
    (p.symbol, p.days)
  }

  /** The series written after write `i`, each once. */
  ghost function LaterSeries<V>(writes: seq<Write<V>>, i: nat): set<Series> {
    set j | i < j < |writes| :: SeriesOf(writes[j].parts)
  }

  ghost function AllSeries<V>(writes: seq<Write<V>>): set<Series> {
    set w | w in writes :: SeriesOf(w.parts)
  }

  lemma {:induction false} OnePerSeriesCounts<V>(writes: seq<Write<V>>)
    requires OnePerSeries(writes)
    ensures |AllSeries(writes)| == |writes|
    decreases |writes|
  {
    var n := |writes|;
    if n == 0 {
      assert AllSeries(writes) == {};
    } else {
      OnePerSeriesCounts(writes[..n - 1]);
      assert writes == writes[..n - 1] + [writes[n - 1]];
      var last := SeriesOf(writes[n - 1].parts);
      assert last !in AllSeries(writes[..n - 1]);
      assert AllSeries(writes) == AllSeries(writes[..n - 1]) + {last};
    }
  }

  lemma {:induction false} OthersAre<V>(writes: seq<Write<V>>, p: Parts, w: Write<V>)
    ensures w in Others(writes, p) <==> w in writes && SeriesOf(w.parts) != SeriesOf(p)
    decreases |writes|
  {
    var n := |writes|;
    if n > 0 {
      OthersAre(writes[..n - 1], p, w);
      assert writes == writes[..n - 1] + [writes[n - 1]];
    }
  }

  lemma SeriesAfterWrite<V>(back: seq<Write<V>>, x: Write<V>)
    ensures AllSeries(Others(back, x.parts) + [x]) == AllSeries(back) + {SeriesOf(x.parts)}
  {
    var next := Others(back, x.parts) + [x];
    forall w | w in back ensures SeriesOf(w.parts) in AllSeries(next) {
      OthersAre(back, x.parts, w);
    }
    forall w | w in Others(back, x.parts) ensures w in back {
      OthersAre(back, x.parts, w);
    }
  }

  lemma LaterSeriesStep<V>(writes: seq<Write<V>>, i: nat)
    requires i < |writes| - 1
    ensures var n := |writes| - 1; LaterSeries(writes, i) == LaterSeries(writes[..n], i) + {SeriesOf(writes[n].parts)}
  {
  }

  lemma OthersAround<V>(front: seq<Write<V>>, w: Write<V>, back: seq<Write<V>>, p: Parts)
    requires !SameSeries(w.parts, p)
    ensures Others(front + [w] + back, p) == Others(front, p) + [w] + Others(back, p)
  {
    OthersOfConcat(front + [w], back, p);
    assert (front + [w])[..|front|] == front;
  }

  /** The last writes behind write `i` are one for each series written after it. */
  lemma {:induction false} BehindAreLaterSeries<V>(writes: seq<Write<V>>, i: nat) returns (front: seq<Write<V>>, back: seq<Write<V>>)
    requires i < |writes| && forall j | i < j < |writes| :: !SameSeries(writes[i].parts, writes[j].parts)
    ensures Latest(writes) == front + [writes[i]] + back && AllSeries(back) == LaterSeries(writes, i)
    decreases |writes|
  {
    var n := |writes| - 1;
    if i == n {
      front, back := Others(Latest(writes[..n]), writes[n].parts), [];
    } else {
      var f, b := BehindAreLaterSeries(writes[..n], i);
      front, back := Others(f, writes[n].parts), Others(b, writes[n].parts) + [writes[n]];
      OthersAround(f, writes[i], b, writes[n].parts);
      SeriesAfterWrite(b, writes[n]);
      LaterSeriesStep(writes, i);
    }
  }

  lemma OnePerSeriesBehind<V>(front: seq<Write<V>>, w: Write<V>, back: seq<Write<V>>)
    requires OnePerSeries(front + [w] + back)
    ensures OnePerSeries(back) && forall v | v in back :: !SameSeries(w.parts, v.parts)
  {
    var all, m := front + [w] + back, |front| + 1;
    forall i | 0 <= i < |back| ensures all[m + i] == back[i] {
    }
    assert all[m - 1] == w;
    forall v | v in back ensures !SameSeries(w.parts, v.parts) {
      var i :| 0 <= i < |back| && back[i] == v;
      assert all[m + i] == v;
    }
    assert back == all[m..];
    SuffixOnePerSeries(all, m);
  }

  lemma InTailExactly<V>(front: seq<Write<V>>, w: Write<V>, back: seq<Write<V>>, count: nat)
    requires OnePerSeries(front + [w] + back) && AllWellFormed(front + [w] + back)
    ensures EntryOf(w) in Entries(Tail(front + [w] + back, count)) <==> |back| < count
  {
    var all := front + [w] + back;
    var tail := Tail(all, count);
    OnePerSeriesBehind(front, w, back);
    if |back| < count {
      var k := if |all| <= count then |front| else count - |back| - 1;
      assert tail[k] == w;
      assert Entries(tail)[k] == EntryOf(w);
    } else {
      assert tail == back[|back| - count..];
      forall k | 0 <= k < |tail| ensures Entries(tail)[k] != EntryOf(w) {
        assert tail[k] in back && tail[k] in all && w in all;
        KeySplitsBack(tail[k].parts);
        KeySplitsBack(w.parts);
      }
    }
  }

  /**
   A write that was not followed by one of its own series is in the cache if and only if fewer other
   series than the cache holds were written after it: nothing is dropped early, nothing is kept longer.
   */
  lemma WriteStaysExactly<V>(writes: seq<Write<V>>, i: nat, maxsize: nat)
    requires AllWellFormed(writes) && 1 <= maxsize && i < |writes|
    requires forall j | i < j < |writes| :: !SameSeries(writes[i].parts, writes[j].parts)
    ensures EntryOf(writes[i]) in After(writes, maxsize) <==> |LaterSeries(writes, i)| < maxsize
  {
    var front, back := BehindAreLaterSeries(writes, i);
    CacheIsNewestOfLatest(writes, maxsize);
    LatestFacts(writes);
    OnePerSeriesBehind(front, writes[i], back);
    OnePerSeriesCounts(back);
    InTailExactly(front, writes[i], back, maxsize);
  }

  /** And one that was followed by another date of its series is not. */
  lemma SupersededIsGone<V>(writes: seq<Write<V>>, i: nat, j: nat, maxsize: nat)
    requires AllWellFormed(writes) && 1 <= maxsize && i < j < |writes|
    requires writes[i].parts.symbol == writes[j].parts.symbol && writes[i].parts.days == writes[j].parts.days
    requires forall k | j < k < |writes| :: writes[k].parts != writes[i].parts
    requires writes[i].parts.date != writes[j].parts.date
    ensures forall e | e in After(writes, maxsize) :: e.key != Key(writes[i].parts)
  {
    CacheIsNewestOfLatest(writes, maxsize);
    var kept := Tail(Latest(writes), maxsize);
    forall e | e in After(writes, maxsize) ensures e.key != Key(writes[i].parts) {
      var k :| 0 <= k < |kept| && EntryOf(kept[k]) == e;
      assert kept[k] in Latest(writes) && writes[i] in writes;
      OlderDateIsReplaced(writes, i, j, kept[k]);
      LatestFacts(writes);
      SameKeySameParts(kept[k].parts, writes[i].parts);
    }
  }

  lemma LatestMember<V>(writes: seq<Write<V>>, w: Write<V>)
    requires w in Latest(writes)
    ensures var n := |writes| - 1;
            n >= 0 && (w == writes[n] || (w in Latest(writes[..n]) && !SameSeries(w.parts, writes[n].parts)))
  {
    var n := |writes| - 1;
    OthersAre(Latest(writes[..n]), writes[n].parts, w);
  }

  lemma SameKeySameParts(p: Parts, q: Parts)
    requires WellFormed(p) && WellFormed(q)
    ensures Key(p) == Key(q) <==> p == q
  {
    KeySplitsBack(p);
    KeySplitsBack(q);
  }

  lemma {:induction false} OlderDateIsReplaced<V>(writes: seq<Write<V>>, i: nat, j: nat, w: Write<V>)
    requires AllWellFormed(writes) && i < j < |writes| && w in Latest(writes)
    requires SameSeries(writes[i].parts, writes[j].parts) && writes[i].parts.date != writes[j].parts.date
    requires forall k | j < k < |writes| :: writes[k].parts != writes[i].parts
    ensures w.parts != writes[i].parts
    decreases |writes|
  {
    var n := |writes| - 1;
    LatestMember(writes, w);
    if w != writes[n] && j < n {
      OlderDateIsReplaced(writes[..n], i, j, w);
    }
  }
}
