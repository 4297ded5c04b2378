/**
 The buffer of buy times behind intraday pacing (core/compliance.py): pruned to two hours at each
 buy, it answers as the unpruned list would. Times are seconds.
 */
module BuyPacing {
  import opened Options

  const BUYS_WINDOW := 7200.0

  /** `str(side).lower() == "buy"`. */
  predicate IsBuy(side: string) {
    |side| == 3 && side[0] in "bB" && side[1] in "uU" && side[2] in "yY"
  }

  function Kept(buys: seq<real>, ts: real): seq<real> {
    var n := |buys|;
    if n == 0 then []
    else if buys[n - 1] >= ts - BUYS_WINDOW then Kept(buys[..n - 1], ts) + [buys[n - 1]]
    else Kept(buys[..n - 1], ts)
  }

  function WithBuy(buys: seq<real>, ts: real): seq<real> {
    Kept(buys + [ts], ts)
  }

  function CountWithin(buys: seq<real>, now: real, span: real): nat {
    var n := |buys|;
    if n == 0 then 0 else CountWithin(buys[..n - 1], now, span) + (if now - buys[n - 1] <= span then 1 else 0)
  }

  function Latest(buys: seq<real>): real
    requires |buys| > 0
  {
    var n := |buys|;
    if n == 1 || buys[n - 1] >= Latest(buys[..n - 1]) then buys[n - 1] else Latest(buys[..n - 1])
  }

  function BuysLastHour(buys: seq<real>, now: real): nat {
    CountWithin(buys, now, 3600.0)
  }

  function MinutesSinceLastBuy(buys: seq<real>, now: real): Option<real> {
    if buys == [] then None else Some((now - Latest(buys)) / 60.0)
  }

  lemma KeptAppend(buys: seq<real>, t: real, ts: real)
    ensures Kept(buys + [t], ts) == if t >= ts - BUYS_WINDOW then Kept(buys, ts) + [t] else Kept(buys, ts)
  {
    assert (buys + [t])[..|buys|] == buys;
  }

  lemma CountAppend(buys: seq<real>, t: real, now: real, span: real)
    ensures CountWithin(buys + [t], now, span) == CountWithin(buys, now, span) + (if now - t <= span then 1 else 0)
  {
    assert (buys + [t])[..|buys|] == buys;
  }

  lemma {:induction false} KeepTwice(buys: seq<real>, t: real, ts: real)
    requires t <= ts
    ensures Kept(Kept(buys, t), ts) == Kept(buys, ts)
    decreases |buys|
  {
    var n := |buys|;
    if n > 0 {
      KeepTwice(buys[..n - 1], t, ts);
      KeptAppend(Kept(buys[..n - 1], t), buys[n - 1], ts);
    }
  }

  lemma {:induction false} KeptCountsAll(buys: seq<real>, ts: real, now: real)
    requires ts - BUYS_WINDOW <= now - 3600.0
    ensures BuysLastHour(Kept(buys, ts), now) == BuysLastHour(buys, now)
    decreases |buys|
  {
    var n := |buys|;
    if n > 0 {
      KeptCountsAll(buys[..n - 1], ts, now);
      CountAppend(Kept(buys[..n - 1], ts), buys[n - 1], now, 3600.0);
    }
  }

  ghost predicate Ascending(buys: seq<real>, now: real) {
    && (forall i, j | 0 <= i < j < |buys| :: buys[i] <= buys[j])
    && (forall i | 0 <= i < |buys| :: buys[i] <= now)
  }

  /** The buffer is the list of all buys, pruned when the last of them was recorded. */
  ghost predicate Mirrors(buffer: seq<real>, all: seq<real>, now: real) {
    Ascending(all, now) && buffer == (if all == [] then [] else Kept(all, all[|all| - 1]))
  }

  lemma BuyKeepsMirror(buffer: seq<real>, all: seq<real>, t: real, ts: real, now: real)
    requires Mirrors(buffer, all, t) && t <= ts <= now
    ensures Mirrors(buffer, all, now) && Mirrors(WithBuy(buffer, ts), all + [ts], now)
  {
    KeptAppend(buffer, ts, ts);
    KeptAppend(all, ts, ts);
    if all != [] {
      KeepTwice(all, all[|all| - 1], ts);
    }
  }

  lemma {:induction false} LatestIsLast(buys: seq<real>, now: real)
    requires |buys| > 0 && Ascending(buys, now)
    ensures Latest(buys) == buys[|buys| - 1]
    decreases |buys|
  {
    if |buys| > 1 {
      LatestIsLast(buys[..|buys| - 1], now);
    }
  }

  lemma {:induction false} KeptAscending(buys: seq<real>, ts: real, now: real)
    requires Ascending(buys, now)
    ensures Ascending(Kept(buys, ts), if buys == [] then now else buys[|buys| - 1])
    decreases |buys|
  {
    var n := |buys|;
    if n > 0 {
      KeptAscending(buys[..n - 1], ts, buys[n - 1]);
    }
  }

  lemma MirrorAnswersAlike(buffer: seq<real>, all: seq<real>, now: real)
    requires Mirrors(buffer, all, now)
    ensures BuysLastHour(buffer, now) == BuysLastHour(all, now)
    ensures MinutesSinceLastBuy(buffer, now) == MinutesSinceLastBuy(all, now)
  {
    if all != [] {
      var last := all[|all| - 1];
      KeptCountsAll(all, last, now);
      LatestIsLast(all, now);
      KeptAscending(all, last, now);
      LatestIsLast(Kept(all, last), last);
    }
  }
}
