/**
 Exit scoring (core/intelligent_exit.py): five pressures between 0 and 100, direct triggers and a
 weighted composite decide whether a position is sold. Percentages and hours are reals.
 */
module IntelligentExit {
  import opened Options

  const SELL_THRESHOLD := 70.0

  datatype LossTiers = LossTiers(watch: real, cut: real, escalation: real, hardStop: real)

  /** From this profit on, this drawdown sells after this many hours. */
  datatype TrailTier = TrailTier(minProfit: real, trailing: real, minHold: real)

  /** An unknown profile name means Legacy. */
  datatype Profile = Legacy | Midterm

  datatype Settings = Settings(tiers: LossTiers, panicEnabled: bool, panicHours: real, profile: Profile,
                               momentumThreshold: real)

  datatype Position = Position(entry: real, current: real, high: real, hours: real, lstm: real,
                               history: seq<real>, news: real)

  const SHIPPED_LOSS_TIERS := LossTiers(-3.0, -6.0, -7.9, -8.0)

  const LEGACY_TIERS := [
    TrailTier(2.0, 1.5, 1.0), TrailTier(5.0, 2.5, 2.0), TrailTier(10.0, 4.0, 4.0),
    TrailTier(20.0, 6.0, 8.0), TrailTier(35.0, 8.0, 12.0)]

  const MIDTERM_TIERS := [
    TrailTier(2.0, 6.0, 72.0), TrailTier(5.0, 8.0, 72.0), TrailTier(10.0, 10.0, 96.0),
    TrailTier(20.0, 12.0, 120.0), TrailTier(35.0, 15.0, 120.0)]

  function TrailTiers(profile: Profile): seq<TrailTier> {
    match profile case Legacy => LEGACY_TIERS case Midterm => MIDTERM_TIERS
  }

  /** Below the lowest tier only the legacy profile has a trailing exit. */
  function SubTier(profile: Profile): Option<TrailTier> {
    match profile case Legacy => Some(TrailTier(0.0, 1.5, 1.0)) case Midterm => None
  }

  function Abs(x: real): real {
    if x < 0.0 then -x else x
  }

  function Capped(x: real): real {
    if x > 100.0 then 100.0 else x
  }

  function PnlPct(p: Position): real {
    if p.entry > 0.0 then (p.current - p.entry) / p.entry * 100.0 else 0.0
  }

  function DrawdownPct(p: Position): real {
    if p.high > 0.0 then (p.high - p.current) / p.high * 100.0 else 0.0
  }

  // ----- The five pressures -----

  function LossBase(pnl: real, t: LossTiers): real {
    if pnl <= t.escalation then 90.0
    else if pnl <= t.cut then 70.0
    else if pnl <= t.watch then 40.0
    else Abs(pnl) * 15.0
  }

  function TimeFactor(hours: real): real {
    if hours >= 72.0 then 1.5 else if hours >= 24.0 then 1.4 else if hours >= 4.0 then 1.2 else 1.0
  }

  function LossPressure(pnl: real, hours: real, t: LossTiers): real {
    if pnl >= 0.0 then 0.0
    else if pnl <= t.hardStop then 100.0
    else Capped(LossBase(pnl, t) * TimeFactor(hours))
  }

  /** The last tier whose profit is reached. */
  function TierFor(tiers: seq<TrailTier>, pnl: real): Option<TrailTier> {
    var n := |tiers|;
    if n == 0 then None
    else if pnl >= tiers[n - 1].minProfit then Some(tiers[n - 1])
    else TierFor(tiers[..n - 1], pnl)
  }

  function ActiveTier(profile: Profile, pnl: real): Option<TrailTier> {
    var tier := TierFor(TrailTiers(profile), pnl);
    if tier.Some? then tier else SubTier(profile)
  }

  function TierScore(tier: TrailTier, drawdown: real, hours: real): real {
    if hours < tier.minHold then 0.0
    else if drawdown >= tier.trailing then Capped(85.0 + (drawdown - tier.trailing) * 15.0)
    else
      var proximity := if tier.trailing > 0.0 then drawdown / tier.trailing * 100.0 else 0.0;
      if proximity > 70.0 then proximity * 0.6 else 0.0
  }

  function TrailingScore(pnl: real, drawdown: real, hours: real, profile: Profile): real {
    if pnl <= 0.0 then 0.0
    else
      match ActiveTier(profile, pnl)
      case None => 0.0
      case Some(tier) => TierScore(tier, drawdown, hours)
  }

  function MomentumFade(lstm: real, history: seq<real>, pnl: real, threshold: real): real {
    var signal :=
      if lstm >= threshold then 0.0
      else if pnl > 0.0 then 60.0 + Abs(lstm) * 60.0
      else 40.0 + Abs(lstm) * 40.0;
    if |history| < 3 then Capped(signal)
    else
      var a, b, c := history[|history| - 3], history[|history| - 2], history[|history| - 1];
      var falling := if a > b > c then 25.0 else 0.0;
      var bearish := if (a + b + c) / 3.0 < -0.2 && pnl > 5.0 then 30.0 else 0.0;
      Capped(signal + falling + bearish)
  }

  function NewsPressure(news: real, pnl: real): real {
    if news >= 0.0 then 0.0
    else
      var base := Abs(news) * 100.0;
      Capped(if pnl > 10.0 then base * 0.5 else if pnl < -2.0 then base * 1.3 else base)
  }

  function TimePressure(pnl: real, hours: real): real {
    if pnl >= 0.0 || hours < 4.0 then 0.0
    else if hours < 24.0 then (hours - 4.0) / 20.0 * 30.0
    else if hours < 72.0 then 30.0 + (hours - 24.0) / 48.0 * 30.0
    else Capped(60.0 + (hours - 72.0) / 24.0 * 10.0)
  }

  // ----- The decision -----

  datatype Scores = Scores(loss: real, trailing: real, momentum: real, news: real, time: real)

  /** `Risk` exits may never be vetoed by a later gate, `Opinion` exits may. */
  datatype Tier = Risk | Opinion

  datatype Cause = HardStop | Trailing | LossEscalation | LossCut | MomentumFading | Composite

  datatype Verdict = Hold | Sell(cause: Cause, tier: Tier, total: real)

  function ScoresOf(p: Position, s: Settings): Scores {
    var pnl := PnlPct(p);
    Scores(LossPressure(pnl, p.hours, s.tiers), TrailingScore(pnl, DrawdownPct(p), p.hours, s.profile),
           MomentumFade(p.lstm, p.history, pnl, s.momentumThreshold), NewsPressure(p.news, pnl), TimePressure(pnl, p.hours))
  }

  function Total(pnl: real, c: Scores): real {
    if pnl < 0.0
    then c.loss * 0.45 + c.trailing * 0.05 + c.momentum * 0.20 + c.news * 0.15 + c.time * 0.15
    else c.loss * 0.00 + c.trailing * 0.40 + c.momentum * 0.35 + c.news * 0.15 + c.time * 0.10
  }

  function LossCause(pnl: real, t: LossTiers): Cause {
    if pnl <= t.hardStop then HardStop else if pnl <= t.escalation then LossEscalation else LossCut
  }

  function Decide(pnl: real, c: Scores, t: LossTiers): Verdict {
    if c.trailing >= 85.0 then Sell(Trailing, Risk, c.trailing)
    else if c.loss >= 90.0 then Sell(LossCause(pnl, t), Risk, c.loss)
    else if pnl > 5.0 && c.momentum >= 80.0 then Sell(MomentumFading, Opinion, c.momentum)
    else if Total(pnl, c) >= SELL_THRESHOLD then Sell(Composite, Opinion, Total(pnl, c))
    else Hold
  }

  predicate InPanicWindow(p: Position, s: Settings) {
    s.panicEnabled && p.hours < s.panicHours
  }

  function Analyze(p: Position, s: Settings): Verdict {
    var pnl := PnlPct(p);
    if InPanicWindow(p, s) then
      if pnl <= s.tiers.hardStop then Sell(HardStop, Risk, 100.0) else Hold
    else Decide(pnl, ScoresOf(p, s), s.tiers)
  }

  // ----- The scores stay in range -----

  ghost predicate InRange(x: real) {
    0.0 <= x <= 100.0
  }

  lemma ActiveTierIsPositive(profile: Profile, pnl: real)
    ensures ActiveTier(profile, pnl).Some? ==> ActiveTier(profile, pnl).value.trailing > 0.0
  {
    TierForIsListed(TrailTiers(profile), pnl);
  }

  lemma {:induction false} TierForIsListed(tiers: seq<TrailTier>, pnl: real)
    ensures TierFor(tiers, pnl).Some? ==> TierFor(tiers, pnl).value in tiers && pnl >= TierFor(tiers, pnl).value.minProfit
    ensures TierFor(tiers, pnl).None? ==> forall t | t in tiers :: pnl < t.minProfit
    decreases |tiers|
  {
    var n := |tiers|;
    if n > 0 {
      TierForIsListed(tiers[..n - 1], pnl);
      assert tiers == tiers[..n - 1] + [tiers[n - 1]];
    }
  }

  /** Untriggered, the warning signal reaches at most 60; triggered, at least 85. */
  lemma TierScoreRange(tier: TrailTier, drawdown: real, hours: real)
    requires tier.trailing > 0.0
    ensures var x := TierScore(tier, drawdown, hours);
            InRange(x) && (x >= 85.0 <==> hours >= tier.minHold && drawdown >= tier.trailing) && (x >= 85.0 || x <= 60.0)
  {
    if drawdown < tier.trailing {
      assert drawdown / tier.trailing <= 1.0;
    }
  }

  lemma TrailingRange(pnl: real, drawdown: real, hours: real, profile: Profile)
    ensures var x := TrailingScore(pnl, drawdown, hours, profile);
            InRange(x) && (x >= 85.0 || x <= 60.0)
  {
    ActiveTierIsPositive(profile, pnl);
    if ActiveTier(profile, pnl).Some? {
      TierScoreRange(ActiveTier(profile, pnl).value, drawdown, hours);
    }
  }

  lemma ScoresInRange(p: Position, s: Settings)
    ensures var c := ScoresOf(p, s);
            InRange(c.loss) && InRange(c.trailing) && InRange(c.momentum) && InRange(c.news) && InRange(c.time)
  {
    TrailingRange(PnlPct(p), DrawdownPct(p), p.hours, s.profile);
  }

  /** Whatever the inputs, the composite is a weighted mean of pressures between 0 and 100. */
  lemma TotalInRange(p: Position, s: Settings)
    ensures InRange(Total(PnlPct(p), ScoresOf(p, s)))
  {
    ScoresInRange(p, s);
  }

  // ----- Waiting, and a higher high -----

  ghost predicate AtLeast(a: Scores, b: Scores) {
    a.loss >= b.loss && a.trailing >= b.trailing && a.momentum >= b.momentum && a.news >= b.news && a.time >= b.time
  }

  /** More pressure never turns a sell into a hold, nor a risk exit into a matter of opinion. */
  lemma MorePressureStillSells(pnl: real, a: Scores, b: Scores, t: LossTiers)
    requires AtLeast(b, a) && Decide(pnl, a, t).Sell?
    ensures Decide(pnl, b, t).Sell? && (Decide(pnl, a, t).tier.Risk? ==> Decide(pnl, b, t).tier.Risk?)
  {
    if a.trailing < 85.0 && a.loss < 90.0 && !(pnl > 5.0 && a.momentum >= 80.0) {
      assert Total(pnl, b) >= Total(pnl, a);
    }
  }

  lemma LossPressureGrowsWithTime(pnl: real, h1: real, h2: real, t: LossTiers)
    requires h1 <= h2
    ensures LossPressure(pnl, h1, t) <= LossPressure(pnl, h2, t)
  {
    if pnl < 0.0 {
      var base := LossBase(pnl, t);
      assert base >= 0.0 && TimeFactor(h1) <= TimeFactor(h2);
      assert base * TimeFactor(h1) <= base * TimeFactor(h2);
    }
  }

  lemma TierScoreGrows(tier: TrailTier, d1: real, h1: real, d2: real, h2: real)
    requires tier.trailing > 0.0 && d1 <= d2 && h1 <= h2
    ensures TierScore(tier, d1, h1) <= TierScore(tier, d2, h2)
  {
    TierScoreRange(tier, d1, h1);
    TierScoreRange(tier, d2, h2);
    assert d1 / tier.trailing <= d2 / tier.trailing;
  }

  lemma TrailingGrows(pnl: real, d1: real, h1: real, d2: real, h2: real, profile: Profile)
    requires d1 <= d2 && h1 <= h2
    ensures TrailingScore(pnl, d1, h1, profile) <= TrailingScore(pnl, d2, h2, profile)
  {
    ActiveTierIsPositive(profile, pnl);
    if ActiveTier(profile, pnl).Some? {
      TierScoreGrows(ActiveTier(profile, pnl).value, d1, h1, d2, h2);
    }
  }

  lemma TimePressureGrows(pnl: real, h1: real, h2: real)
    requires h1 <= h2
    ensures TimePressure(pnl, h1) <= TimePressure(pnl, h2)
  {
  }

  lemma ScalingKeepsOrder(x: real, y: real, factor: real)
    requires factor > 0.0
    ensures x < y ==> x * factor < y * factor
  {
  }

  lemma DrawdownAsRatio(current: real, high: real)
    requires high > 0.0
    ensures (high - current) / high == 1.0 - current / high
  {
    var x, y := (high - current) / high, 1.0 - current / high;
    assert x * high == high - current == y * high;
    ScalingKeepsOrder(x, y, high);
    ScalingKeepsOrder(y, x, high);
  }

  lemma DrawdownGrows(p: Position, high: real)
    requires 0.0 < p.high <= high && 0.0 <= p.current
    ensures DrawdownPct(p) <= DrawdownPct(p.(high := high))
  {
    assert p.current / high <= p.current / p.high;
    DrawdownAsRatio(p.current, p.high);
    DrawdownAsRatio(p.current, high);
  }

  lemma HigherHighTrailsMore(p: Position, high: real, hours: real, profile: Profile)
    requires p.high <= high && 0.0 <= p.current && p.hours <= hours
    ensures TrailingScore(PnlPct(p), DrawdownPct(p), p.hours, profile)
            <= TrailingScore(PnlPct(p), DrawdownPct(p.(high := high)), hours, profile)
  {
    if 0.0 < p.high {
      DrawdownGrows(p, high);
      TrailingGrows(PnlPct(p), DrawdownPct(p), p.hours, DrawdownPct(p.(high := high)), hours, profile);
    } else {
      ActiveTierIsPositive(profile, PnlPct(p));
      TrailingRange(PnlPct(p), DrawdownPct(p.(high := high)), hours, profile);
    }
  }

  /** A loss at or below the hard stop is sold as a risk exit at once, whatever the hours and the switch. */
  lemma HardStopAlwaysSells(p: Position, s: Settings)
    requires s.tiers.hardStop < 0.0 && PnlPct(p) <= s.tiers.hardStop
    ensures Analyze(p, s).Sell? && Analyze(p, s).tier.Risk? && Analyze(p, s).cause.HardStop?
  {
  }

  /**
   With everything else unchanged, holding longer, a higher high-water mark and worse news never
   turn a sell into a hold, across the panic window, the direct triggers and the composite; and
   what was a risk exit stays one.
   */
  lemma PatienceNeverUnsells(p: Position, s: Settings, hours: real, high: real, news: real)
    requires s.tiers.hardStop < 0.0
    requires p.hours <= hours && p.high <= high && news <= p.news && 0.0 <= p.current
    requires Analyze(p, s).Sell?
    ensures var later := Analyze(p.(hours := hours, high := high, news := news), s);
            later.Sell? && (Analyze(p, s).tier.Risk? ==> later.tier.Risk?)
  {
    var q := p.(hours := hours, high := high, news := news);
    var pnl := PnlPct(p);
    assert PnlPct(q) == pnl;
    if InPanicWindow(p, s) {
      HardStopAlwaysSells(q, s);
    } else {
      assert DrawdownPct(q) == DrawdownPct(p.(high := high));
      HigherHighTrailsMore(p, high, hours, s.profile);
      LossPressureGrowsWithTime(pnl, p.hours, hours, s.tiers);
      TimePressureGrows(pnl, p.hours, hours);
      MorePressureStillSells(pnl, ScoresOf(p, s), ScoresOf(q, s), s.tiers);
    }
  }

  // ----- Who may sell what -----

  /** A position above +5% is sold only by its trailing stop or by fading momentum. */
  lemma BigWinnersAreNotOutvoted(p: Position, s: Settings)
    requires PnlPct(p) > 5.0 && s.tiers.hardStop < 0.0 && Analyze(p, s).Sell?
    ensures Analyze(p, s).cause.Trailing? || Analyze(p, s).cause.MomentumFading?
  {
    ScoresInRange(p, s);
    TrailingRange(PnlPct(p), DrawdownPct(p), p.hours, s.profile);
  }

  /** The trailing stop fires exactly when the drawdown reaches the active tier after its minimum hold. */
  lemma TrailingFiresExactly(p: Position, s: Settings)
    requires !InPanicWindow(p, s)
    ensures var verdict, tier := Analyze(p, s), ActiveTier(s.profile, PnlPct(p));
            verdict.Sell? && verdict.cause.Trailing? <==>
              && PnlPct(p) > 0.0 && tier.Some?
              && p.hours >= tier.value.minHold && DrawdownPct(p) >= tier.value.trailing
  {
    ActiveTierIsPositive(s.profile, PnlPct(p));
    if ActiveTier(s.profile, PnlPct(p)).Some? {
      TierScoreRange(ActiveTier(s.profile, PnlPct(p)).value, DrawdownPct(p), p.hours);
    }
  }

  ghost predicate Ordered(t: LossTiers) {
    t.hardStop < t.escalation < t.cut < t.watch < 0.0
  }

  predicate IsLossCause(c: Cause) {
    c.HardStop? || c.LossEscalation? || c.LossCut?
  }

  /**
   Outside the panic window a loss sells by itself exactly in the escalation band, in the cut band
   from the 24th hour on, or above the watch tier where the linear pressure has reached the trigger.
   */
  lemma LossSellsExactly(p: Position, s: Settings)
    requires !InPanicWindow(p, s) && Ordered(s.tiers)
    ensures var pnl, t, verdict := PnlPct(p), s.tiers, Analyze(p, s);
            verdict.Sell? && IsLossCause(verdict.cause) <==>
              || pnl <= t.escalation
              || (pnl <= t.cut && p.hours >= 24.0)
              || (t.watch < pnl < 0.0 && 15.0 * Abs(pnl) * TimeFactor(p.hours) >= 90.0)
  {
    var pnl, f := PnlPct(p), TimeFactor(p.hours);
    assert LossBase(pnl, s.tiers) == 15.0 * Abs(pnl) ==> LossBase(pnl, s.tiers) * f == 15.0 * Abs(pnl) * f;
    LossPressureAtBases(f);
  }

  lemma LossPressureAtBases(f: real)
    requires f in {1.0, 1.2, 1.4, 1.5}
    ensures 90.0 * f >= 90.0 && 40.0 * f < 90.0 && (70.0 * f >= 90.0 <==> f >= 1.4)
  {
  }

  /** Some loss above the watch tier sells by itself exactly when the watch tier lies deep enough. */
  lemma LinearBandCanSellExactly(hours: real, t: LossTiers)
    requires Ordered(t)
    ensures (exists pnl :: t.watch < pnl < 0.0 && LossPressure(pnl, hours, t) >= 90.0) <==>
            15.0 * Abs(t.watch) * TimeFactor(hours) > 90.0
  {
    var f := TimeFactor(hours);
    forall pnl | t.watch < pnl < 0.0 ensures LossPressure(pnl, hours, t) < 15.0 * Abs(t.watch) * f {
      assert Abs(pnl) * 15.0 * f < Abs(t.watch) * 15.0 * f;
    }
    if 15.0 * Abs(t.watch) * f > 90.0 {
      var edge := 90.0 / (15.0 * f);
      ReachedAtEdge(f, Abs(t.watch));
      assert t.watch < -edge < 0.0 && LossPressure(-edge, hours, t) >= 90.0;
    }
  }

  lemma ReachedAtEdge(f: real, depth: real)
    requires f in {1.0, 1.2, 1.4, 1.5} && 15.0 * depth * f > 90.0
    ensures var edge := 90.0 / (15.0 * f); 0.0 < edge < depth && edge * 15.0 * f == 90.0
  {
  }

  /** With the shipped watch tier that never happens. */
  lemma ShippedWatchTierNeverSells(p: Position, s: Settings)
    requires !InPanicWindow(p, s) && s.tiers == SHIPPED_LOSS_TIERS && PnlPct(p) > s.tiers.cut
    ensures Analyze(p, s).Sell? ==> !IsLossCause(Analyze(p, s).cause)
  {
    LossSellsExactly(p, s);
  }

  /** What the settings registry lets through with the hard stop at -8. */
  predicate Permitted(t: LossTiers) {
    && t.hardStop == -8.0
    && -7.9 <= t.watch <= -0.5 && -7.9 <= t.cut <= -1.0 && -7.9 <= t.escalation <= -2.0
    && t.cut >= -7.8 && t.escalation <= t.cut - 0.1 && t.watch >= t.cut + 0.1
  }

  /**
   With permitted tiers a position at -4.9% is cut after a day while the same position at -5.5%
   is held.
   */
  lemma DeeperLossIsHeld(t: LossTiers, p: Position, q: Position, s: Settings)
    requires t == LossTiers(-5.0, -6.0, -7.9, -8.0)
    requires p == Position(100.0, 95.1, 100.0, 24.0, 0.0, [], 0.0) && q == p.(current := 94.5)
    requires s == Settings(t, true, 2.0, Legacy, -0.3)
    ensures Permitted(t) && Ordered(t)
    ensures Analyze(p, s).Sell? && Analyze(p, s).tier.Risk? && Analyze(q, s).Hold?
  {
    assert PnlPct(p) == -4.9 && PnlPct(q) == -5.5;
    assert LossPressure(PnlPct(p), 24.0, t) == 100.0;
    assert LossPressure(PnlPct(q), 24.0, t) == 56.0;
  }

  ghost predicate DeeperIsWorse(hours: real, t: LossTiers) {
    forall p, q :: p <= q ==> LossPressure(p, hours, t) >= LossPressure(q, hours, t)
  }

  /**
   Loss pressure grows with the depth of the loss exactly when the linear slope up to the watch
   tier stays within the tier's own base of 40.
   */
  lemma DepthMonotoneExactly(hours: real, t: LossTiers)
    requires Ordered(t)
    ensures DeeperIsWorse(hours, t) <==> 15.0 * Abs(t.watch) <= 40.0
  {
    var f := TimeFactor(hours);
    if 15.0 * Abs(t.watch) <= 40.0 {
      forall p, q | p <= q ensures LossPressure(p, hours, t) >= LossPressure(q, hours, t) {
        if q < 0.0 && t.hardStop < p {
          assert LossBase(p, t) >= LossBase(q, t);
          assert LossBase(p, t) * f >= LossBase(q, t) * f;
        }
      }
    } else {
      var q := (t.watch - 8.0 / 3.0) / 2.0;
      assert t.watch < q < 0.0 && LossBase(q, t) > 40.0;
      assert LossPressure(t.watch, hours, t) < LossPressure(q, hours, t);
    }
  }

  /** The shipped tiers are on the wrong side of it. */
  lemma ShippedTiersDip(hours: real)
    ensures !DeeperIsWorse(hours, SHIPPED_LOSS_TIERS)
  {
    DepthMonotoneExactly(hours, SHIPPED_LOSS_TIERS);
  }

  // ----- The analysis, filled step by step -----

  class ExitAnalysis {
    var pnl: real
    var scores: Scores
    var total: real
    var shouldSell: bool
    var confidence: real
    var tier: Tier
    var cause: Option<Cause>

    constructor (pnl: real)
      ensures this.pnl == pnl && !shouldSell && tier == Risk && cause == None && confidence == 0.0
    {
      this.pnl, scores, total := pnl, Scores(0.0, 0.0, 0.0, 0.0, 0.0), 0.0;
      shouldSell, confidence, tier, cause := false, 0.0, Risk, None;
    }

    ghost predicate Shows(v: Verdict)
      reads this
    {
      match v
      case Hold => !shouldSell && cause == None
      case Sell(c, t, sum) => shouldSell && cause == Some(c) && tier == t && total == sum
    }

    method Sell(cause: Cause, tier: Tier, total: real, confidence: real)
      modifies this
      ensures Shows(Verdict.Sell(cause, tier, total)) && this.confidence == confidence
      ensures pnl == old(pnl) && scores == old(scores)
    {
      this.total, shouldSell, this.confidence, this.tier, this.cause := total, true, confidence, tier, Some(cause);
    }
  }

  method FindTier(tiers: seq<TrailTier>, pnl: real) returns (tier: Option<TrailTier>)
    ensures tier == TierFor(tiers, pnl)
  {
    var i := |tiers|;
    assert tiers[..i] == tiers;
    while i > 0
      invariant 0 <= i <= |tiers|
      invariant TierFor(tiers[..i], pnl) == TierFor(tiers, pnl)
    {
      i := i - 1;
      assert tiers[..i + 1][..i] == tiers[..i];
      if pnl >= tiers[i].minProfit {
        return Some(tiers[i]);
      }
    }
    tier := None;
  }

  method CalculateTrailingStopScore(pnl: real, drawdown: real, hours: real, profile: Profile) returns (score: real)
    ensures score == TrailingScore(pnl, drawdown, hours, profile)
  {
    if pnl <= 0.0 {
      return 0.0;
    }
    var tier := FindTier(TrailTiers(profile), pnl);
    if tier.None? {
      tier := SubTier(profile);
      if tier.None? {
        return 0.0;
      }
    }
    if hours < tier.value.minHold {
      return 0.0;
    }
    if drawdown >= tier.value.trailing {
      return Capped(85.0 + (drawdown - tier.value.trailing) * 15.0);
    }
    var proximity := if tier.value.trailing > 0.0 then drawdown / tier.value.trailing * 100.0 else 0.0;
    if proximity > 70.0 {
      return proximity * 0.6;
    }
    score := 0.0;
  }

  /** A sale is certain (1.0) but for fading momentum (0.9) and the composite (its share of 100). */
  method AnalyzeExit(p: Position, s: Settings) returns (a: ExitAnalysis)
    ensures fresh(a) && a.pnl == PnlPct(p) && a.Shows(Analyze(p, s))
    ensures !InPanicWindow(p, s) ==> a.scores == ScoresOf(p, s)
    ensures 0.0 <= a.confidence <= 1.0 && (a.shouldSell && a.tier.Risk? ==> a.confidence == 1.0)
  {
    var pnl, drawdown := PnlPct(p), DrawdownPct(p);
    a := new ExitAnalysis(pnl);
    if s.panicEnabled && p.hours < s.panicHours {
      if pnl <= s.tiers.hardStop {
        a.Sell(HardStop, Risk, 100.0, 1.0);
      }
      return;
    }
    var trailing := CalculateTrailingStopScore(pnl, drawdown, p.hours, s.profile);
    a.scores := Scores(LossPressure(pnl, p.hours, s.tiers), trailing,
                       MomentumFade(p.lstm, p.history, pnl, s.momentumThreshold), NewsPressure(p.news, pnl),
                       TimePressure(pnl, p.hours));
    if a.scores.trailing >= 85.0 {
      a.Sell(Trailing, Risk, a.scores.trailing, 1.0);
      return;
    }
    if a.scores.loss >= 90.0 {
      var cause := if pnl <= s.tiers.hardStop then HardStop else if pnl <= s.tiers.escalation then LossEscalation else LossCut;
      a.Sell(cause, Risk, a.scores.loss, 1.0);
      return;
    }
    if pnl > 5.0 && a.scores.momentum >= 80.0 {
      a.Sell(MomentumFading, Opinion, a.scores.momentum, 0.9);
      return;
    }
    TotalInRange(p, s);
    a.total := Total(pnl, a.scores);
    if a.total >= SELL_THRESHOLD {
      a.Sell(Composite, Opinion, a.total, a.total / 100.0);
    }
  }
}
