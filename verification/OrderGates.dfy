/**
 The sliding-window gates of the compliance guardian (core/compliance.py): order throttle,
 wash-trade check and buy pacing. Each keeps a buffer that is pruned on the way; the full history
 is the reference they are measured against. Times are seconds.
 */
module OrderGates {
  import opened BuyPacing

  const THROTTLE_WINDOW := 1.0

  datatype Record = Record(user: string, symbol: string, side: string, at: real)

  // ----- Pruning -----

  /** The records younger than `window`, in order. */
  function Recent(s: seq<Record>, now: real, window: real): seq<Record> {
    var n := |s|;
    if n == 0 then []
    else if now - s[n - 1].at < window then Recent(s[..n - 1], now, window) + [s[n - 1]]
    else Recent(s[..n - 1], now, window)
  }

  lemma RecentAppend(s: seq<Record>, r: Record, now: real, window: real)
    ensures Recent(s + [r], now, window) ==
            if now - r.at < window then Recent(s, now, window) + [r] else Recent(s, now, window)
  {
    assert (s + [r])[..|s|] == s;
  }

  lemma {:induction false} PruneTwice(s: seq<Record>, t: real, now: real, window: real)
    requires t <= now
    ensures Recent(Recent(s, t, window), now, window) == Recent(s, now, window)
    decreases |s|
  {
    var n := |s|;
    if n > 0 {
      PruneTwice(s[..n - 1], t, now, window);
      RecentAppend(Recent(s[..n - 1], t, window), s[n - 1], now, window);
    }
  }

  lemma {:induction false} RecentHas(s: seq<Record>, now: real, window: real, r: Record)
    ensures r in Recent(s, now, window) <==> r in s && now - r.at < window
    decreases |s|
  {
    var n := |s|;
    if n > 0 {
      RecentHas(s[..n - 1], now, window, r);
      assert s == s[..n - 1] + [s[n - 1]];
    }
  }

  function Count(s: seq<Record>, p: Record -> bool): nat {
    var n := |s|;
    if n == 0 then 0 else Count(s[..n - 1], p) + (if p(s[n - 1]) then 1 else 0)
  }

  function ByUser(user: string): Record -> bool {
    (r: Record) => r.user == user
  }

  function BySymbol(user: string, symbol: string): Record -> bool {
    (r: Record) => r.user == user && r.symbol == symbol
  }

  lemma CountAppend(s: seq<Record>, r: Record, p: Record -> bool)
    ensures Count(s + [r], p) == Count(s, p) + (if p(r) then 1 else 0)
  {
    assert (s + [r])[..|s|] == s;
  }

  lemma {:induction false} CountConcat(a: seq<Record>, b: seq<Record>, p: Record -> bool)
    ensures Count(a + b, p) == Count(a, p) + Count(b, p)
    decreases |b|
  {
    var m := |b|;
    if m == 0 {
      assert a + b == a;
    } else {
      CountConcat(a, b[..m - 1], p);
      assert a + b == (a + b[..m - 1]) + [b[m - 1]];
      CountAppend(a + b[..m - 1], b[m - 1], p);
    }
  }

  /** A tail that is recent throughout survives the pruning. */
  lemma {:induction false} RecentTail(a: seq<Record>, b: seq<Record>, now: real, window: real)
    requires forall r | r in b :: now - r.at < window
    ensures Recent(a + b, now, window) == Recent(a, now, window) + b
    decreases |b|
  {
    var m := |b|;
    if m == 0 {
      assert a + b == a;
    } else {
      var init, last := b[..m - 1], b[m - 1];
      assert last in b;
      calc {
        Recent(a + b, now, window);
      == { assert a + b == (a + init) + [last]; }
        Recent((a + init) + [last], now, window);
      == { RecentAppend(a + init, last, now, window); }
        Recent(a + init, now, window) + [last];
      == { RecentTail(a, init, now, window); }
        (Recent(a, now, window) + init) + [last];
      == { assert b == init + [last]; }
        Recent(a, now, window) + b;
      }
    }
  }

  /** A stretch of the history that is all recent is counted in full by the pruned buffer. */
  lemma RecentCountsAll(s: seq<Record>, i: nat, now: real, window: real, p: Record -> bool)
    requires i <= |s| && forall k | i <= k < |s| :: now - s[k].at < window
    ensures Count(s[i..], p) <= Count(Recent(s, now, window), p)
  {
    assert s == s[..i] + s[i..];
    RecentTail(s[..i], s[i..], now, window);
    CountConcat(Recent(s[..i], now, window), s[i..], p);
  }

  // ----- One order -----

  /** The caps are fixed at construction; the window may be replaced by a policy reload. */
  datatype Limits = Limits(perUser: nat, perSymbol: nat, washWindow: real)

  /** An order with the clock readings its check takes in turn. */
  datatype Attempt = Attempt(user: string, symbol: string, side: string, wellFormed: bool, withinRisk: bool,
                             washAt: real, at: real, cleanedAt: real)

  datatype Buffers = Buffers(throttle: seq<Record>, trades: seq<Record>, buys: seq<real>)

  function Opposite(side: string): string {
    if side == "buy" then "sell" else "buy"
  }

  predicate Conflicts(r: Record, symbol: string, side: string, user: string) {
    r.symbol == symbol && r.side == Opposite(side) && r.user == user
  }

  /** The wash-trade check on any list of records. */
  predicate Washes(records: seq<Record>, a: Attempt, window: real) {
    exists r | r in records :: Conflicts(r, a.symbol, a.side, a.user) && a.washAt - r.at < window
  }

  predicate Throttled(recent: seq<Record>, a: Attempt, limits: Limits) {
    || Count(recent, ByUser(a.user)) >= limits.perUser
    || Count(recent, BySymbol(a.user, a.symbol)) >= limits.perSymbol
  }

  predicate PassesStatic(b: Buffers, a: Attempt, limits: Limits) {
    a.wellFormed && !Washes(b.trades, a, limits.washWindow) && a.withinRisk
  }

  predicate Admits(b: Buffers, a: Attempt, limits: Limits) {
    PassesStatic(b, a, limits) && !Throttled(Recent(b.throttle, a.at, THROTTLE_WINDOW), a, limits)
  }

  function RecordOf(a: Attempt): Record {
    Record(a.user, a.symbol, a.side, a.at)
  }

  /** A throttled order still prunes the throttle buffer; an earlier rejection changes nothing. */
  function Checked(b: Buffers, a: Attempt, limits: Limits): Buffers {
    if !PassesStatic(b, a, limits) then b
    else
      var recent := Recent(b.throttle, a.at, THROTTLE_WINDOW);
      if Throttled(recent, a, limits) then b.(throttle := recent)
      else Buffers(recent + [RecordOf(a)],
                   Recent(b.trades + [RecordOf(a)], a.cleanedAt, limits.washWindow),
                   if IsBuy(a.side) then WithBuy(b.buys, a.at) else b.buys)
  }

  // ----- Runs and their full history -----

  datatype Event = Check(a: Attempt) | DailyReset

  /** The buffers beside everything they forget: all admitted orders, all buys since the last reset. */
  datatype State = State(buffers: Buffers, admitted: seq<Record>, buysSinceReset: seq<real>)

  function Next(st: State, e: Event, limits: Limits): State {
    match e
    case DailyReset => State(st.buffers.(buys := []), st.admitted, [])
    case Check(a) =>
      if !Admits(st.buffers, a, limits) then st.(buffers := Checked(st.buffers, a, limits))
      else State(Checked(st.buffers, a, limits), st.admitted + [RecordOf(a)],
                 if IsBuy(a.side) then st.buysSinceReset + [a.at] else st.buysSinceReset)
  }

  function After(events: seq<Event>, limits: Limits): State {
    var n := |events|;
    if n == 0 then State(Buffers([], [], []), [], []) else Next(After(events[..n - 1], limits), events[n - 1], limits)
  }

  /** The clock never runs backwards, within a check or between checks, and has reached `now`. */
  ghost predicate MonotoneUpTo(events: seq<Event>, now: real) {
    var n := |events|;
    n > 0 ==>
      if events[n - 1].DailyReset? then MonotoneUpTo(events[..n - 1], now)
      else
        var a := events[n - 1].a;
        a.washAt <= a.at <= a.cleanedAt <= now && MonotoneUpTo(events[..n - 1], a.washAt)
  }

  // ----- The buffers know all that matters -----

  ghost predicate Faithful(st: State, limits: Limits, now: real) {
    && Recent(st.buffers.throttle, now, THROTTLE_WINDOW) == Recent(st.admitted, now, THROTTLE_WINDOW)
    && Recent(st.buffers.trades, now, limits.washWindow) == Recent(st.admitted, now, limits.washWindow)
  }

  lemma AdmittedKeepsFaith(st: State, a: Attempt, limits: Limits, t: real, now: real)
    requires Faithful(st, limits, t) && t <= a.washAt <= a.at <= a.cleanedAt <= now
    requires Admits(st.buffers, a, limits)
    ensures Faithful(Next(st, Check(a), limits), limits, now)
  {
    var b, r, w := st.buffers, RecordOf(a), limits.washWindow;
    PruneTwice(b.throttle, a.at, now, THROTTLE_WINDOW);
    PruneTwice(b.throttle, t, now, THROTTLE_WINDOW);
    PruneTwice(st.admitted, t, now, THROTTLE_WINDOW);
    RecentAppend(Recent(b.throttle, a.at, THROTTLE_WINDOW), r, now, THROTTLE_WINDOW);
    RecentAppend(st.admitted, r, now, THROTTLE_WINDOW);
    PruneTwice(b.trades + [r], a.cleanedAt, now, w);
    RecentAppend(b.trades, r, now, w);
    RecentAppend(st.admitted, r, now, w);
    PruneTwice(b.trades, t, now, w);
    PruneTwice(st.admitted, t, now, w);
  }

  lemma {:induction false} RunsAreFaithful(events: seq<Event>, limits: Limits, now: real)
    requires MonotoneUpTo(events, now)
    ensures Faithful(After(events, limits), limits, now)
    decreases |events|
  {
    var n := |events|;
    if n > 0 {
      var before, e := events[..n - 1], events[n - 1];
      var st := After(before, limits);
      match e
      case DailyReset => RunsAreFaithful(before, limits, now);
      case Check(a) =>
        RunsAreFaithful(before, limits, a.washAt);
        if Admits(st.buffers, a, limits) {
          AdmittedKeepsFaith(st, a, limits, a.washAt, now);
        } else {
          PruneTwice(st.buffers.throttle, a.at, now, THROTTLE_WINDOW);
          PruneTwice(st.buffers.throttle, a.washAt, now, THROTTLE_WINDOW);
          PruneTwice(st.admitted, a.washAt, now, THROTTLE_WINDOW);
          PruneTwice(st.buffers.trades, a.washAt, now, limits.washWindow);
          PruneTwice(st.admitted, a.washAt, now, limits.washWindow);
        }
    }
  }

  /** Decided on the pruned buffers, decided on everything ever admitted: the same answer. */
  lemma PrunedBuffersDecideAsHistory(events: seq<Event>, a: Attempt, limits: Limits)
    requires MonotoneUpTo(events, a.washAt) && a.washAt <= a.at
    ensures var st := After(events, limits);
            && Washes(st.buffers.trades, a, limits.washWindow) == Washes(st.admitted, a, limits.washWindow)
            && Throttled(Recent(st.buffers.throttle, a.at, THROTTLE_WINDOW), a, limits)
               == Throttled(Recent(st.admitted, a.at, THROTTLE_WINDOW), a, limits)
  {
    RunsAreFaithful(events, limits, a.washAt);
    var st, w := After(events, limits), limits.washWindow;
    PruneTwice(st.buffers.throttle, a.washAt, a.at, THROTTLE_WINDOW);
    PruneTwice(st.admitted, a.washAt, a.at, THROTTLE_WINDOW);
    forall r ensures r in st.buffers.trades && a.washAt - r.at < w <==> r in st.admitted && a.washAt - r.at < w {
      RecentHas(st.buffers.trades, a.washAt, w, r);
      RecentHas(st.admitted, a.washAt, w, r);
    }
  }

  // ----- What the gates guarantee over the whole history -----

  /** Admitted orders carry the times of their checks, in order. */
  ghost predicate InOrder(s: seq<Record>) {
    forall i, j | 0 <= i < j < |s| :: s[i].at <= s[j].at
  }

  lemma {:induction false} AdmittedInOrder(events: seq<Event>, limits: Limits, now: real)
    requires MonotoneUpTo(events, now)
    ensures InOrder(After(events, limits).admitted)
    ensures forall r | r in After(events, limits).admitted :: r.at <= now
    decreases |events|
  {
    var n := |events|;
    if n > 0 {
      match events[n - 1]
      case DailyReset => AdmittedInOrder(events[..n - 1], limits, now);
      case Check(a) => AdmittedInOrder(events[..n - 1], limits, a.washAt);
    }
  }

  /** The orders admitted from `i` to `j` reach neither cap beyond its value. */
  ghost predicate WithinCaps(s: seq<Record>, i: nat, j: nat, limits: Limits)
    requires i <= j < |s|
  {
    && Count(s[i..j + 1], ByUser(s[j].user)) <= limits.perUser
    && Count(s[i..j + 1], BySymbol(s[j].user, s[j].symbol)) <= limits.perSymbol
  }

  ghost predicate EverySecondWithinCaps(s: seq<Record>, limits: Limits) {
    forall i, j | 0 <= i <= j < |s| && s[j].at - s[i].at < THROTTLE_WINDOW :: WithinCaps(s, i, j, limits)
  }

  lemma SuffixAppend(s: seq<Record>, r: Record, i: nat)
    requires i <= |s|
    ensures (s + [r])[i..|s| + 1] == s[i..] + [r]
  {
  }

  lemma NewestWithinCap(s: seq<Record>, r: Record, i: nat, p: Record -> bool, cap: nat)
    requires Count(Recent(s, r.at, THROTTLE_WINDOW), p) < cap && i <= |s|
    requires forall k | i <= k < |s| :: r.at - s[k].at < THROTTLE_WINDOW
    ensures Count((s + [r])[i..|s| + 1], p) <= cap
  {
    SuffixAppend(s, r, i);
    calc {
      Count((s + [r])[i..|s| + 1], p);
    ==
      Count(s[i..] + [r], p);
    <= { CountAppend(s[i..], r, p); }
      Count(s[i..], p) + 1;
    <= { RecentCountsAll(s, i, r.at, THROTTLE_WINDOW, p); }
      Count(Recent(s, r.at, THROTTLE_WINDOW), p) + 1;
    }
  }

  lemma NewestWithinCaps(s: seq<Record>, a: Attempt, limits: Limits, i: nat)
    requires !Throttled(Recent(s, a.at, THROTTLE_WINDOW), a, limits) && i <= |s|
    requires forall k | i <= k < |s| :: a.at - s[k].at < THROTTLE_WINDOW
    ensures WithinCaps(s + [RecordOf(a)], i, |s|, limits)
  {
    NewestWithinCap(s, RecordOf(a), i, ByUser(a.user), limits.perUser);
    NewestWithinCap(s, RecordOf(a), i, BySymbol(a.user, a.symbol), limits.perSymbol);
    assert (s + [RecordOf(a)])[|s|] == RecordOf(a);
  }

  lemma OlderWithinCaps(s: seq<Record>, r: Record, limits: Limits, i: nat, j: nat)
    requires i <= j < |s| && WithinCaps(s, i, j, limits)
    ensures WithinCaps(s + [r], i, j, limits)
  {
    assert (s + [r])[i..j + 1] == s[i..j + 1];
  }

  lemma RecentThroughout(s: seq<Record>, r: Record, i: nat)
    requires InOrder(s + [r]) && i <= |s| && r.at - (s + [r])[i].at < THROTTLE_WINDOW
    ensures forall k | i <= k < |s| :: r.at - s[k].at < THROTTLE_WINDOW
  {
    var all := s + [r];
    forall k | i <= k < |s| ensures r.at - s[k].at < THROTTLE_WINDOW {
      assert all[i].at <= all[k].at && all[k] == s[k];
    }
  }

  lemma AppendKeepsCaps(s: seq<Record>, a: Attempt, limits: Limits)
    requires EverySecondWithinCaps(s, limits) && InOrder(s + [RecordOf(a)])
    requires !Throttled(Recent(s, a.at, THROTTLE_WINDOW), a, limits)
    ensures EverySecondWithinCaps(s + [RecordOf(a)], limits)
  {
    var r := RecordOf(a);
    var all := s + [r];
    assert all[|s|] == r && forall k | 0 <= k < |s| :: all[k] == s[k];
    forall i, j | 0 <= i <= j < |all| && all[j].at - all[i].at < THROTTLE_WINDOW ensures WithinCaps(all, i, j, limits) {
      if j < |s| {
        OlderWithinCaps(s, r, limits, i, j);
      } else {
        RecentThroughout(s, r, i);
        NewestWithinCaps(s, a, limits, i);
      }
    }
  }

  /**
   The throttle holds over the whole history, not only over what the pruned buffer shows: any
   stretch of admitted orders shorter than one second keeps both caps of its last order.
   */
  lemma {:induction false} ThrottleHoldsOverHistory(events: seq<Event>, limits: Limits, now: real)
    requires MonotoneUpTo(events, now)
    ensures EverySecondWithinCaps(After(events, limits).admitted, limits)
    decreases |events|
  {
    var n := |events|;
    if n > 0 {
      var before := events[..n - 1];
      var st := After(before, limits);
      match events[n - 1]
      case DailyReset => ThrottleHoldsOverHistory(before, limits, now);
      case Check(a) =>
        ThrottleHoldsOverHistory(before, limits, a.washAt);
        if Admits(st.buffers, a, limits) {
          PrunedBuffersDecideAsHistory(before, a, limits);
          AdmittedInOrder(events, limits, now);
          AppendKeepsCaps(st.admitted, a, limits);
        }
    }
  }

  ghost predicate ConflictsApart(s: seq<Record>, window: real) {
    forall i, j | 0 <= i < j < |s| && Conflicts(s[i], s[j].symbol, s[j].side, s[j].user) :: s[j].at - s[i].at >= window
  }

  lemma AppendKeepsApart(s: seq<Record>, a: Attempt, window: real)
    requires ConflictsApart(s, window) && !Washes(s, a, window) && a.washAt <= a.at
    ensures ConflictsApart(s + [RecordOf(a)], window)
  {
    forall i | 0 <= i < |s| && Conflicts(s[i], a.symbol, a.side, a.user) ensures a.at - s[i].at >= window {
      assert s[i] in s;
    }
  }

  /** No two admitted orders of one user and symbol with conflicting sides lie closer than the window. */
  lemma {:induction false} NoWashTrades(events: seq<Event>, limits: Limits, now: real)
    requires MonotoneUpTo(events, now)
    ensures ConflictsApart(After(events, limits).admitted, limits.washWindow)
    decreases |events|
  {
    var n := |events|;
    if n > 0 {
      var before := events[..n - 1];
      match events[n - 1]
      case DailyReset => NoWashTrades(before, limits, now);
      case Check(a) =>
        NoWashTrades(before, limits, a.washAt);
        if Admits(After(before, limits).buffers, a, limits) {
          PrunedBuffersDecideAsHistory(before, a, limits);
          AppendKeepsApart(After(before, limits).admitted, a, limits.washWindow);
        }
    }
  }

  // ----- Buy pacing over a run -----

  lemma StepMirrorsBuys(st: State, a: Attempt, limits: Limits, now: real)
    requires Mirrors(st.buffers.buys, st.buysSinceReset, a.washAt) && a.washAt <= a.at <= now
    ensures var next := Next(st, Check(a), limits); Mirrors(next.buffers.buys, next.buysSinceReset, now)
  {
    BuyKeepsMirror(st.buffers.buys, st.buysSinceReset, a.washAt, a.at, now);
  }

  lemma {:induction false} RunsMirrorBuys(events: seq<Event>, limits: Limits, now: real)
    requires MonotoneUpTo(events, now)
    ensures Mirrors(After(events, limits).buffers.buys, After(events, limits).buysSinceReset, now)
    decreases |events|
  {
    var n := |events|;
    if n > 0 {
      var before := events[..n - 1];
      match events[n - 1]
      case DailyReset => RunsMirrorBuys(before, limits, now);
      case Check(a) =>
        RunsMirrorBuys(before, limits, a.washAt);
        StepMirrorsBuys(After(before, limits), a, limits, now);
    }
  }

  /**
   The two-hour buffer answers as the whole day would: buys within the last hour and minutes since
   the latest buy, at every moment from the last check on.
   */
  lemma PacingSeesTheWholeDay(events: seq<Event>, limits: Limits, now: real)
    requires MonotoneUpTo(events, now)
    ensures var st := After(events, limits);
            && BuysLastHour(st.buffers.buys, now) == BuysLastHour(st.buysSinceReset, now)
            && MinutesSinceLastBuy(st.buffers.buys, now) == MinutesSinceLastBuy(st.buysSinceReset, now)
  {
    RunsMirrorBuys(events, limits, now);
    MirrorAnswersAlike(After(events, limits).buffers.buys, After(events, limits).buysSinceReset, now);
  }
}
