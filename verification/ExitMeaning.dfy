/**
 When a position is sold (core/intelligent_exit.py), on its prices, hours, forecasts and news: the
 trailing tiers, the direct triggers and the weighted composite, each exactly.
 */
module ExitMeaning {
  import opened Options
  import opened IntelligentExit

  /** Gain and drawdown are percentages of the entry and of the high. */
  lemma PercentagesMean(p: Position)
    ensures if p.entry > 0.0 then PnlPct(p) * p.entry == (p.current - p.entry) * 100.0 else PnlPct(p) == 0.0
    ensures if p.high > 0.0 then DrawdownPct(p) * p.high == (p.high - p.current) * 100.0 else DrawdownPct(p) == 0.0
  {
  }

  // ----- The trailing stop -----

  lemma TierOfFive(tiers: seq<TrailTier>, pnl: real)
    requires |tiers| == 5
    ensures TierFor(tiers, pnl) ==
            if pnl >= tiers[4].minProfit then Some(tiers[4])
            else if pnl >= tiers[3].minProfit then Some(tiers[3])
            else if pnl >= tiers[2].minProfit then Some(tiers[2])
            else if pnl >= tiers[1].minProfit then Some(tiers[1])
            else if pnl >= tiers[0].minProfit then Some(tiers[0])
            else None
  {
    var a, b, c, d := tiers[..4], tiers[..3], tiers[..2], tiers[..1];
    assert a[..3] == b && b[..2] == c && c[..1] == d && d[..0] == [];
    assert TierFor(d, pnl) == if pnl >= tiers[0].minProfit then Some(tiers[0]) else TierFor(d[..0], pnl);
    assert TierFor(c, pnl) == if pnl >= tiers[1].minProfit then Some(tiers[1]) else TierFor(d, pnl);
    assert TierFor(b, pnl) == if pnl >= tiers[2].minProfit then Some(tiers[2]) else TierFor(c, pnl);
    assert TierFor(a, pnl) == if pnl >= tiers[3].minProfit then Some(tiers[3]) else TierFor(b, pnl);
  }

  /** The pullback that sells at this gain: so far below the high, after so many hours. */
  predicate PullsBack(profile: Profile, pnl: real, drawdown: real, hours: real) {
    pnl > 0.0 &&
    match profile
    case Legacy =>
      if pnl < 5.0 then drawdown >= 1.5 && hours >= 1.0
      else if pnl < 10.0 then drawdown >= 2.5 && hours >= 2.0
      else if pnl < 20.0 then drawdown >= 4.0 && hours >= 4.0
      else if pnl < 35.0 then drawdown >= 6.0 && hours >= 8.0
      else drawdown >= 8.0 && hours >= 12.0
    case Midterm =>
      && pnl >= 2.0
      && if pnl < 5.0 then drawdown >= 6.0 && hours >= 72.0
         else if pnl < 10.0 then drawdown >= 8.0 && hours >= 72.0
         else if pnl < 20.0 then drawdown >= 10.0 && hours >= 96.0
         else if pnl < 35.0 then drawdown >= 12.0 && hours >= 120.0
         else drawdown >= 15.0 && hours >= 120.0
  }

  lemma PullbackExactly(p: Position, s: Settings)
    ensures TrailingScore(PnlPct(p), DrawdownPct(p), p.hours, s.profile) >= 85.0 <==>
            PullsBack(s.profile, PnlPct(p), DrawdownPct(p), p.hours)
  {
    var pnl := PnlPct(p);
    TierOfFive(TrailTiers(s.profile), pnl);
    if pnl > 0.0 && ActiveTier(s.profile, pnl).Some? {
      ActiveTierIsPositive(s.profile, pnl);
      TierScoreRange(ActiveTier(s.profile, pnl).value, DrawdownPct(p), p.hours);
    }
  }

  /** Outside the panic window the trailing stop sells exactly on such a pullback. */
  lemma TrailingSellsExactly(p: Position, s: Settings)
    requires !InPanicWindow(p, s)
    ensures Analyze(p, s).Sell? && Analyze(p, s).cause.Trailing? <==>
            PullsBack(s.profile, PnlPct(p), DrawdownPct(p), p.hours)
  {
    PullbackExactly(p, s);
  }

  // ----- Fading momentum -----

  /** The last three forecasts fall one after the other. */
  predicate Falling(history: seq<real>) {
    var n := |history|;
    n >= 3 && history[n - 3] > history[n - 2] && history[n - 2] > history[n - 1]
  }

  /** The last three forecasts are below -0.2 on average. */
  predicate Bearish(history: seq<real>) {
    var n := |history|;
    n >= 3 && history[n - 3] + history[n - 2] + history[n - 1] < -0.6
  }

  /** The forecast is below the threshold, and strong, falling or bearish for some time. */
  predicate Fades(p: Position, s: Settings) {
    && p.lstm < s.momentumThreshold
    && (3.0 * p.lstm >= 1.0 || 3.0 * p.lstm <= -1.0 || Falling(p.history) || Bearish(p.history))
  }

  lemma FadesExactly(p: Position, s: Settings, pnl: real)
    requires pnl > 5.0
    ensures MomentumFade(p.lstm, p.history, pnl, s.momentumThreshold) >= 80.0 <==> Fades(p, s)
  {
    var n := |p.history|;
    if n >= 3 {
      var sum := p.history[n - 3] + p.history[n - 2] + p.history[n - 1];
      assert sum / 3.0 < -0.2 <==> sum < -0.6;
    }
  }

  /** Outside the panic window and without a pullback, a gain above five percent is sold exactly when momentum fades. */
  lemma MomentumSellsExactly(p: Position, s: Settings)
    requires !InPanicWindow(p, s) && PnlPct(p) > 5.0 && !PullsBack(s.profile, PnlPct(p), DrawdownPct(p), p.hours)
    requires s.tiers.hardStop < 0.0
    ensures Analyze(p, s).Sell? <==> Fades(p, s)
    ensures Analyze(p, s).Sell? ==> Analyze(p, s).cause.MomentumFading? && Analyze(p, s).tier.Opinion?
  {
    PullbackExactly(p, s);
    FadesExactly(p, s, PnlPct(p));
    if Analyze(p, s).Sell? {
      BigWinnersAreNotOutvoted(p, s);
    }
  }

  /** A worse forecast never lowers the pressure, below a threshold that is not positive. */
  lemma WorseForecastPressesMore(better: real, worse: real, history: seq<real>, pnl: real, threshold: real)
    requires worse <= better && threshold <= 0.0
    ensures MomentumFade(better, history, pnl, threshold) <= MomentumFade(worse, history, pnl, threshold)
  {
  }

  // ----- The composite -----

  /** A loss that sells by itself: in the escalation band, in the cut band after a day, or linear at the trigger. */
  predicate LossCuts(pnl: real, hours: real, t: LossTiers) {
    || pnl <= t.escalation
    || (pnl <= t.cut && hours >= 24.0)
    || (t.watch < pnl < 0.0 && 15.0 * -pnl * (if hours >= 72.0 then 1.5 else if hours >= 24.0 then 1.4 else if hours >= 4.0 then 1.2 else 1.0) >= 90.0)
  }

  /** Hundredths of the pressures: 45 loss, 20 momentum, 15 news and 15 time below zero, 40 trailing, 35 momentum, 15 news above. */
  function Weighed(p: Position, s: Settings): real {
    var pnl := PnlPct(p);
    var momentum, news := MomentumFade(p.lstm, p.history, pnl, s.momentumThreshold), NewsPressure(p.news, pnl);
    if pnl < 0.0 then 45.0 * LossPressure(pnl, p.hours, s.tiers) + 20.0 * momentum + 15.0 * news + 15.0 * TimePressure(pnl, p.hours)
    else 40.0 * TrailingScore(pnl, DrawdownPct(p), p.hours, s.profile) + 35.0 * momentum + 15.0 * news
  }

  lemma WeighedIsTotal(p: Position, s: Settings)
    ensures Weighed(p, s) == 100.0 * Total(PnlPct(p), ScoresOf(p, s))
  {
    var pnl, c := PnlPct(p), ScoresOf(p, s);
    if pnl < 0.0 {
      assert c.trailing == 0.0;
      WeighedLoss(c);
    } else {
      assert c.loss == 0.0 && c.time == 0.0;
      WeighedGain(c);
    }
  }

  lemma WeighedLoss(c: Scores)
    requires c.trailing == 0.0
    ensures 45.0 * c.loss + 20.0 * c.momentum + 15.0 * c.news + 15.0 * c.time == 100.0 * Total(-1.0, c)
  {
  }

  lemma WeighedGain(c: Scores)
    requires c.loss == 0.0 && c.time == 0.0
    ensures 40.0 * c.trailing + 35.0 * c.momentum + 15.0 * c.news == 100.0 * Total(0.0, c)
  {
  }

  /**
   Outside the panic window a position is sold if and only if it pulls back, its loss cuts, its gain above
   five percent fades, or the weighed pressures reach 70; the first two are risk exits.
   */
  lemma SoldExactly(p: Position, s: Settings)
    requires !InPanicWindow(p, s) && Ordered(s.tiers)
    ensures var pnl := PnlPct(p);
            var risk := PullsBack(s.profile, pnl, DrawdownPct(p), p.hours) || LossCuts(pnl, p.hours, s.tiers);
            && (Analyze(p, s).Sell? <==> risk || (pnl > 5.0 && Fades(p, s)) || Weighed(p, s) >= 7000.0)
            && (Analyze(p, s).Sell? && Analyze(p, s).tier.Risk? <==> risk)
  {
    PullbackExactly(p, s);
    WeighedIsTotal(p, s);
    LossCutsExactly(p, s);
    if PnlPct(p) > 5.0 {
      FadesExactly(p, s, PnlPct(p));
    }
  }

  lemma LossCutsExactly(p: Position, s: Settings)
    requires Ordered(s.tiers)
    ensures LossPressure(PnlPct(p), p.hours, s.tiers) >= 90.0 <==> LossCuts(PnlPct(p), p.hours, s.tiers)
  {
    var pnl, f := PnlPct(p), TimeFactor(p.hours);
    LossPressureAtBases(f);
    assert LossBase(pnl, s.tiers) == 15.0 * Abs(pnl) ==> LossBase(pnl, s.tiers) * f == 15.0 * Abs(pnl) * f;
  }

  /** In the panic window only the hard stop sells. */
  lemma PanicWindowExactly(p: Position, s: Settings)
    requires s.panicEnabled && p.hours < s.panicHours
    ensures Analyze(p, s).Sell? <==> PnlPct(p) <= s.tiers.hardStop
    ensures Analyze(p, s).Sell? ==> Analyze(p, s).tier.Risk?
  {
  }

  // ----- What the pressures are at their corners -----

  /** Loss pressure in its bands, before four hours and at four, 24 and 72. */
  lemma LossMilestones(pnl: real, t: LossTiers)
    requires Ordered(t)
    ensures pnl >= 0.0 ==> forall h :: LossPressure(pnl, h, t) == 0.0
    ensures pnl <= t.hardStop ==> forall h :: LossPressure(pnl, h, t) == 100.0
    ensures t.hardStop < pnl <= t.escalation ==> LossPressure(pnl, 0.0, t) == 90.0 && LossPressure(pnl, 4.0, t) == 100.0
    ensures t.escalation < pnl <= t.cut ==> LossPressure(pnl, 0.0, t) == 70.0 && LossPressure(pnl, 4.0, t) == 84.0 && LossPressure(pnl, 24.0, t) == 98.0
    ensures t.cut < pnl <= t.watch ==> LossPressure(pnl, 0.0, t) == 40.0 && LossPressure(pnl, 4.0, t) == 48.0 && LossPressure(pnl, 24.0, t) == 56.0 && LossPressure(pnl, 72.0, t) == 60.0
  {
  }

  /** Time presses losers only, from four hours on; bad news presses winners half and losers a third more. */
  lemma TimeAndNewsMilestones(pnl: real)
    ensures pnl >= 0.0 ==> forall h :: TimePressure(pnl, h) == 0.0
    ensures pnl < 0.0 ==> TimePressure(pnl, 4.0) == 0.0 && TimePressure(pnl, 14.0) == 15.0 && TimePressure(pnl, 24.0) == 30.0
                          && TimePressure(pnl, 48.0) == 45.0 && TimePressure(pnl, 72.0) == 60.0 && TimePressure(pnl, 168.0) == 100.0
    ensures NewsPressure(0.0, pnl) == 0.0
    ensures NewsPressure(-0.5, pnl) == if pnl > 10.0 then 25.0 else if pnl < -2.0 then 65.0 else 50.0
  {
  }
}
