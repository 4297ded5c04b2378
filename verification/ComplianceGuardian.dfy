/**
 The compliance guardian object (core/compliance.py): its buffers and counter, updated in place,
 proved against the gates of OrderGates and the budget of DailyTrades.
 */
module ComplianceGuardian {
  import opened Options
  import G = OrderGates
  import P = BuyPacing
  import D = DailyTrades
  import H = GateHistory

  class Guardian {
    const limits: G.Limits
    const rules: D.Rules
    var throttle: seq<G.Record>
    var recentTrades: seq<G.Record>
    var recentBuys: seq<real>
    var dailyTrades: int
    var store: Option<map<string, int>>

    /** The durable value of the day survives the restart. */
    constructor (limits: G.Limits, rules: D.Rules, store: Option<map<string, int>>, day: string, readable: bool)
      ensures this.limits == limits && this.rules == rules && Buffers() == G.Buffers([], [], [])
      ensures Budget() == D.Reset(rules, D.Guardian(0, store), day, readable)
    {
      this.limits, this.rules, this.store := limits, rules, store;
      throttle, recentTrades, recentBuys := [], [], [];
      dailyTrades := D.BudgetOfToday(rules, D.Guardian(0, store), day, readable);
    }

    ghost function Buffers(): G.Buffers
      reads this
    {
      G.Buffers(throttle, recentTrades, recentBuys)
    }

    ghost function Budget(): D.Guardian
      reads this
    {
      D.Guardian(dailyTrades, store)
    }

    method DetectWashTrade(a: G.Attempt) returns (found: bool)
      ensures found == G.Washes(recentTrades, a, limits.washWindow)
      ensures found <==> H.OpposedRecently(recentTrades, a, limits.washWindow)
    {
      H.WashesExactly(recentTrades, a, limits.washWindow);
      for i := 0 to |recentTrades|
        invariant forall k | 0 <= k < i ::
          !(G.Conflicts(recentTrades[k], a.symbol, a.side, a.user) && a.washAt - recentTrades[k].at < limits.washWindow)
      {
        if G.Conflicts(recentTrades[i], a.symbol, a.side, a.user) && a.washAt - recentTrades[i].at < limits.washWindow {
          return true;
        }
      }
      found := false;
    }

    method RecordRecentTrade(r: G.Record, cleanedAt: real)
      modifies `recentTrades, `recentBuys
      ensures recentTrades == G.Recent(old(recentTrades) + [r], cleanedAt, limits.washWindow)
      ensures recentBuys == if P.IsBuy(r.side) then P.WithBuy(old(recentBuys), r.at) else old(recentBuys)
    {
      recentTrades := recentTrades + [r];
      recentTrades := G.Recent(recentTrades, cleanedAt, limits.washWindow);
      if P.IsBuy(r.side) {
        recentBuys := recentBuys + [r.at];
        recentBuys := P.Kept(recentBuys, r.at);
      }
    }

    method CheckOrder(a: G.Attempt) returns (approved: bool)
      modifies `throttle, `recentTrades, `recentBuys
      ensures approved == G.Admits(old(Buffers()), a, limits)
      ensures Buffers() == G.Checked(old(Buffers()), a, limits)
    {
      if !a.wellFormed {
        return false;
      }
      var wash := DetectWashTrade(a);
      if wash || !a.withinRisk {
        return false;
      }
      throttle := G.Recent(throttle, a.at, G.THROTTLE_WINDOW);
      if G.Count(throttle, G.ByUser(a.user)) >= limits.perUser {
        return false;
      }
      if G.Count(throttle, G.BySymbol(a.user, a.symbol)) >= limits.perSymbol {
        return false;
      }
      throttle := throttle + [G.RecordOf(a)];
      RecordRecentTrade(G.RecordOf(a), a.cleanedAt);
      approved := true;
    }

    method CheckTrade(o: D.Order, source: D.Source) returns (ok: bool)
      ensures ok == D.Passes(rules, Budget(), o, source)
      ensures ok <==> source == D.HumanApproved || (rules.exemptExits && D.ReducesHolding(o)) || dailyTrades < rules.cap
    {
      if !source.HumanApproved? && !(rules.exemptExits && D.IsRiskReducingExit(o)) && dailyTrades >= rules.cap {
        return false;
      }
      ok := true;
    }

    method Book(day: string, amount: int)
      modifies `store
      ensures Budget() == D.Booked(old(Budget()), day, amount)
    {
      if store.Some? {
        var value := if day in store.value then store.value[day] else 0;
        store := Some(store.value[day := value + amount]);
      }
    }

    method RecordTrade(o: D.Order, day: string)
      modifies `dailyTrades, `store
      ensures Budget() == D.Recorded(rules, old(Budget()), o, day)
      ensures dailyTrades == old(dailyTrades) + (if rules.exemptExits && D.ReducesHolding(o) then 0 else 1)
    {
      if rules.exemptExits && D.IsRiskReducingExit(o) {
        return;
      }
      dailyTrades := dailyTrades + 1;
      Book(day, 1);
    }

    method RefundTrade(day: string)
      modifies `dailyTrades, `store
      ensures Budget() == D.Refunded(old(Budget()), day)
      ensures dailyTrades == if old(dailyTrades) > 0 then old(dailyTrades) - 1 else old(dailyTrades)
    {
      if dailyTrades > 0 {
        dailyTrades := dailyTrades - 1;
        Book(day, -1);
      }
    }

    method ResetDailyLimit(day: string, readable: bool)
      modifies `dailyTrades, `recentBuys
      ensures Budget() == D.Reset(rules, old(Budget()), day, readable)
      ensures recentBuys == []
    {
      dailyTrades := D.BudgetOfToday(rules, D.Guardian(dailyTrades, store), day, readable);
      recentBuys := [];
    }
  }
}
