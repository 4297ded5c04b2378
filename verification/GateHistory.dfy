/**
 What the compliance gates of core/compliance.py let through, on the admitted orders themselves: who
 bought or sold what, and when. Each is exact: what must lie apart, and what passes.
 */
module GateHistory {
  import opened Options
  import opened OrderGates
  import P = BuyPacing

  // ----- Counting by index -----

  ghost function Below(n: nat, q: nat -> bool): set<nat> {
    set k: nat | k < n && q(k)
  }

  lemma BelowStep(n: nat, q: nat -> bool)
    ensures |Below(n + 1, q)| == |Below(n, q)| + (if q(n) then 1 else 0)
  {
    assert n !in Below(n, q);
    assert Below(n + 1, q) == if q(n) then Below(n, q) + {n} else Below(n, q);
  }

  /** The indices from `i` on whose order satisfies `p` and is younger than `window`. */
  function Picks(s: seq<Record>, i: nat, p: Record -> bool): nat -> bool {
    (k: nat) => i <= k < |s| && p(s[k])
  }

  function PicksRecent(s: seq<Record>, now: real, window: real, p: Record -> bool): nat -> bool {
    (k: nat) => k < |s| && p(s[k]) && now - s[k].at < window
  }

  lemma NothingBelow(n: nat, q: nat -> bool)
    requires forall k: nat | k < n :: !q(k)
    ensures Below(n, q) == {}
  {
  }

  lemma {:induction false} StretchCount(s: seq<Record>, i: nat, j: nat, p: Record -> bool)
    requires i <= j <= |s|
    ensures Count(s[i..j], p) == |Below(j, Picks(s, i, p))|
    decreases j - i
  {
    if i == j {
      NothingBelow(j, Picks(s, i, p));
    } else {
      StretchCount(s, i, j - 1, p);
      BelowStep(j - 1, Picks(s, i, p));
      assert s[i..j] == s[i..j - 1] + [s[j - 1]];
      CountAppend(s[i..j - 1], s[j - 1], p);
    }
  }

  lemma {:induction false} RecentCount(s: seq<Record>, n: nat, now: real, window: real, p: Record -> bool)
    requires n <= |s|
    ensures Count(Recent(s[..n], now, window), p) == |Below(n, PicksRecent(s, now, window, p))|
    decreases n
  {
    if n == 0 {
      NothingBelow(0, PicksRecent(s, now, window, p));
    } else {
      RecentCount(s, n - 1, now, window, p);
      BelowStep(n - 1, PicksRecent(s, now, window, p));
      assert s[..n] == s[..n - 1] + [s[n - 1]];
      RecentAppend(s[..n - 1], s[n - 1], now, window);
      CountAppend(Recent(s[..n - 1], now, window), s[n - 1], p);
    }
  }

  // ----- Wash trades -----

  /** The sides as written: a buy is opposed by a sell, anything else by a buy. */
  predicate Opposes(earlier: string, later: string) {
    if later == "buy" then earlier == "sell" else earlier == "buy"
  }

  /** A buy and a sell of one user and symbol, in either order, are admitted only the window apart. */
  lemma BuyAndSellLieApart(events: seq<Event>, limits: Limits, now: real, i: nat, j: nat)
    requires MonotoneUpTo(events, now) && i < j < |After(events, limits).admitted|
    requires var s := After(events, limits).admitted;
             s[i].user == s[j].user && s[i].symbol == s[j].symbol && {s[i].side, s[j].side} == {"buy", "sell"}
    ensures var s := After(events, limits).admitted; s[j].at - s[i].at >= limits.washWindow
  {
    var s := After(events, limits).admitted;
    NoWashTrades(events, limits, now);
    TwoSides(s[i].side, s[j].side);
    assert Conflicts(s[i], s[j].symbol, s[j].side, s[j].user);
  }

  lemma TwoSides(a: string, b: string)
    requires {a, b} == {"buy", "sell"}
    ensures (a == "buy" && b == "sell") || (a == "sell" && b == "buy")
  {
    assert "buy" in {a, b} && "sell" in {a, b};
    assert "buy"[0] != "sell"[0];
  }

  // ----- What passes -----

  ghost predicate OpposedRecently(s: seq<Record>, a: Attempt, window: real) {
    exists k :: 0 <= k < |s| && s[k].user == a.user && s[k].symbol == a.symbol && Opposes(s[k].side, a.side) && a.washAt - s[k].at < window
  }

  /** The user's admitted orders of the second before the attempt, and those in the same symbol. */
  ghost function LastSecond(s: seq<Record>, a: Attempt): set<nat> {
    set k: nat | k < |s| && s[k].user == a.user && a.at - s[k].at < 1.0
  }

  ghost function LastSecondInSymbol(s: seq<Record>, a: Attempt): set<nat> {
    set k: nat | k < |s| && s[k].user == a.user && s[k].symbol == a.symbol && a.at - s[k].at < 1.0
  }

  lemma WashesExactly(s: seq<Record>, a: Attempt, window: real)
    ensures Washes(s, a, window) <==> OpposedRecently(s, a, window)
  {
    if Washes(s, a, window) {
      var r :| r in s && Conflicts(r, a.symbol, a.side, a.user) && a.washAt - r.at < window;
      var k :| 0 <= k < |s| && s[k] == r;
    }
    if OpposedRecently(s, a, window) {
      var k :| 0 <= k < |s| && s[k].user == a.user && s[k].symbol == a.symbol && Opposes(s[k].side, a.side) && a.washAt - s[k].at < window;
      assert s[k] in s;
    }
  }

  lemma ThrottledExactly(s: seq<Record>, a: Attempt, limits: Limits)
    ensures Throttled(Recent(s, a.at, 1.0), a, limits) <==>
            |LastSecond(s, a)| >= limits.perUser || |LastSecondInSymbol(s, a)| >= limits.perSymbol
  {
    assert s[..|s|] == s;
    RecentCount(s, |s|, a.at, 1.0, ByUser(a.user));
    RecentCount(s, |s|, a.at, 1.0, BySymbol(a.user, a.symbol));
    assert LastSecond(s, a) == Below(|s|, PicksRecent(s, a.at, 1.0, ByUser(a.user)));
    assert LastSecondInSymbol(s, a) == Below(|s|, PicksRecent(s, a.at, 1.0, BySymbol(a.user, a.symbol)));
  }

  /**
   After any run an order is admitted if and only if it is well formed and within risk, no admitted
   order of its user and symbol on the opposite side is younger than the wash window, and its user has
   admitted fewer orders within the last second than each cap allows. The pruned buffers decide this.
   */
  lemma AdmittedExactly(events: seq<Event>, a: Attempt, limits: Limits)
    requires MonotoneUpTo(events, a.washAt) && a.washAt <= a.at
    ensures var s := After(events, limits).admitted;
            Admits(After(events, limits).buffers, a, limits) <==>
              && a.wellFormed && a.withinRisk && !OpposedRecently(s, a, limits.washWindow)
              && |LastSecond(s, a)| < limits.perUser && |LastSecondInSymbol(s, a)| < limits.perSymbol
  {
    var s := After(events, limits).admitted;
    PrunedBuffersDecideAsHistory(events, a, limits);
    WashesExactly(s, a, limits.washWindow);
    ThrottledExactly(s, a, limits);
  }

  /** What an admitted order adds to the history, and that a rejected one adds nothing. */
  lemma HistoryGrowsByTheAdmitted(events: seq<Event>, a: Attempt, limits: Limits)
    ensures var st, next := After(events, limits), After(events + [Check(a)], limits);
            next.admitted == if Admits(st.buffers, a, limits) then st.admitted + [Record(a.user, a.symbol, a.side, a.at)] else st.admitted
  {
    assert (events + [Check(a)])[..|events|] == events;
  }

  // ----- Caps over the history -----

  /** In every stretch of admitted orders shorter than a second, the last order's user stays within both caps. */
  lemma EverySecondStaysWithinCaps(events: seq<Event>, limits: Limits, now: real, i: nat, j: nat)
    requires MonotoneUpTo(events, now) && i <= j < |After(events, limits).admitted|
    requires var s := After(events, limits).admitted; s[j].at - s[i].at < 1.0
    ensures var s := After(events, limits).admitted;
            && |(set k: nat | i <= k < j + 1 && s[k].user == s[j].user)| <= limits.perUser
            && |(set k: nat | i <= k < j + 1 && s[k].user == s[j].user && s[k].symbol == s[j].symbol)| <= limits.perSymbol
  {
    var s := After(events, limits).admitted;
    ThrottleHoldsOverHistory(events, limits, now);
    assert WithinCaps(s, i, j, limits);
    StretchByUser(s, i, j);
  }

  lemma StretchByUser(s: seq<Record>, i: nat, j: nat)
    requires i <= j < |s|
    ensures Count(s[i..j + 1], ByUser(s[j].user)) == |(set k: nat | i <= k < j + 1 && s[k].user == s[j].user)|
    ensures Count(s[i..j + 1], BySymbol(s[j].user, s[j].symbol))
            == |(set k: nat | i <= k < j + 1 && s[k].user == s[j].user && s[k].symbol == s[j].symbol)|
  {
    var u, y := ByUser(s[j].user), BySymbol(s[j].user, s[j].symbol);
    StretchCount(s, i, j + 1, u);
    StretchCount(s, i, j + 1, y);
    assert (set k: nat | i <= k < j + 1 && s[k].user == s[j].user) == Below(j + 1, Picks(s, i, u));
    assert (set k: nat | i <= k < j + 1 && s[k].user == s[j].user && s[k].symbol == s[j].symbol) == Below(j + 1, Picks(s, i, y));
  }

  // ----- Pacing -----

  function PicksWithin(buys: seq<real>, now: real, span: real): nat -> bool {
    (k: nat) => k < |buys| && now - buys[k] <= span
  }

  lemma {:induction false} CountWithinIs(buys: seq<real>, n: nat, now: real, span: real)
    requires n <= |buys|
    ensures P.CountWithin(buys[..n], now, span) == |Below(n, PicksWithin(buys, now, span))|
    decreases n
  {
    if n == 0 {
      NothingBelow(0, PicksWithin(buys, now, span));
    } else {
      CountWithinIs(buys, n - 1, now, span);
      BelowStep(n - 1, PicksWithin(buys, now, span));
      assert buys[..n] == buys[..n - 1] + [buys[n - 1]];
      P.CountAppend(buys[..n - 1], buys[n - 1], now, span);
    }
  }

  lemma {:induction false} LatestIsGreatest(buys: seq<real>)
    requires |buys| > 0
    ensures P.Latest(buys) in buys && forall b | b in buys :: b <= P.Latest(buys)
    decreases |buys|
  {
    var n := |buys|;
    if n > 1 {
      LatestIsGreatest(buys[..n - 1]);
      assert buys == buys[..n - 1] + [buys[n - 1]];
    }
  }

  /**
   The pacing answers, from the pruned buffer: the number of buys since the daily reset that are at most
   3600 seconds old, and the minutes since the latest of them, None exactly when there was none.
   */
  lemma PacingCountsTheBuysOfTheDay(events: seq<Event>, limits: Limits, now: real)
    requires MonotoneUpTo(events, now)
    ensures var st, buys := After(events, limits), After(events, limits).buysSinceReset;
            && P.BuysLastHour(st.buffers.buys, now) == |(set k: nat | k < |buys| && now - buys[k] <= 3600.0)|
            && (P.MinutesSinceLastBuy(st.buffers.buys, now) == None <==> buys == [])
            && (forall m | P.MinutesSinceLastBuy(st.buffers.buys, now) == Some(m) ::
                  (exists b | b in buys :: m == (now - b) / 60.0) && forall b | b in buys :: m <= (now - b) / 60.0)
  {
    var st, buys := After(events, limits), After(events, limits).buysSinceReset;
    PacingSeesTheWholeDay(events, limits, now);
    CountWithinIs(buys, |buys|, now, 3600.0);
    assert buys[..|buys|] == buys;
    assert (set k: nat | k < |buys| && now - buys[k] <= 3600.0) == Below(|buys|, PicksWithin(buys, now, 3600.0));
    if buys != [] {
      LatestIsGreatest(buys);
    }
  }

  /** A record counts as a buy in any spelling of the word, and as nothing else. */
  lemma AdmittedBuysAreCounted(events: seq<Event>, a: Attempt, limits: Limits)
    requires Admits(After(events, limits).buffers, a, limits)
    ensures var st, next := After(events, limits), After(events + [Check(a)], limits);
            && (a.side in {"buy", "BUY", "Buy"} ==> next.buysSinceReset == st.buysSinceReset + [a.at])
            && (a.side in {"sell", "SELL", "Sell"} ==> next.buysSinceReset == st.buysSinceReset)
            && After(events + [DailyReset], limits).buysSinceReset == []
  {
    assert (events + [Check(a)])[..|events|] == events;
    assert (events + [DailyReset])[..|events|] == events;
  }
}
