/**
 A human-approved order is never lost (core/hitl_queue.py): whatever writes of whatever calls a
 crash cuts off, an approved order stays approved or in flight until it is acknowledged or its
 time runs out, and a claimed one is always listed for recovery.
 */
module HitlDurability {
  import opened Options
  import opened TtlMap
  import opened HitlQueue

  /** A copy of the approved order `o` that lasts at least until `d`. */
  ghost predicate Secured(s: Store, o: Order, d: int) {
    HeldAt(s, Approved(o.id), o, d) || HeldAt(s, Inflight(o.id), o, d)
  }

  ghost predicate HeldAt(s: Store, k: Key, o: Order, d: int) {
    k in s && s[k].value == Blob(o) && (s[k].deadline.Some? ==> d <= s[k].deadline.value)
  }

  /** A write that touches neither copy of `id` except to renew it. */
  ghost predicate Spares(c: Command, id: string) {
    c.Del? ==> Approved(id) !in c.keys && Inflight(id) !in c.keys
  }

  lemma SparedKeepsHeld(s: Store, c: Command, pushed: map<string, Order>, now: int, k: Key, o: Order, d: int)
    requires Faithful(s, pushed) && InWindows(s, now) && CommandFits(c, pushed)
    requires k.Approved? || k.Inflight?
    requires k.id == o.id && HeldAt(s, k, o, d) && (c.Del? ==> k !in c.keys)
    ensures HeldAt(Perform(s, c, now), k, o, d)
  {
    assert EntryFits(k, s[k].value, pushed);
  }

  lemma {:induction false} SparedKeepsSecured(s: Store, cs: seq<Command>, pushed: map<string, Order>, now: int, o: Order, d: int)
    requires Faithful(s, pushed) && InWindows(s, now) && AllFit(cs, pushed)
    requires Secured(s, o, d) && forall c | c in cs :: Spares(c, o.id)
    ensures Secured(PerformAll(s, cs, now), o, d)
    decreases |cs|
  {
    var n := |cs|;
    if n > 0 {
      SparedKeepsSecured(s, cs[..n - 1], pushed, now, o, d);
      WritesKeepFaith(s, cs[..n - 1], pushed, now);
      var t := PerformAll(s, cs[..n - 1], now);
      assert CommandFits(cs[n - 1], pushed) && Spares(cs[n - 1], o.id);
      if HeldAt(t, Approved(o.id), o, d) {
        SparedKeepsHeld(t, cs[n - 1], pushed, now, Approved(o.id), o, d);
      } else {
        SparedKeepsHeld(t, cs[n - 1], pushed, now, Inflight(o.id), o, d);
      }
    }
  }

  lemma {:induction false} InflightSurvives(s: Store, cs: seq<Command>, pushed: map<string, Order>, now: int, o: Order, d: int)
    requires Faithful(s, pushed) && InWindows(s, now) && AllFit(cs, pushed)
    requires HeldAt(s, Inflight(o.id), o, d)
    requires forall c | c in cs && c.Del? :: Inflight(o.id) !in c.keys
    ensures HeldAt(PerformAll(s, cs, now), Inflight(o.id), o, d)
    decreases |cs|
  {
    var n := |cs|;
    if n > 0 {
      InflightSurvives(s, cs[..n - 1], pushed, now, o, d);
      WritesKeepFaith(s, cs[..n - 1], pushed, now);
      assert CommandFits(cs[n - 1], pushed);
      SparedKeepsHeld(PerformAll(s, cs[..n - 1], now), cs[n - 1], pushed, now, Inflight(o.id), o, d);
    }
  }

  lemma {:induction false} ClaimSparesMarkers(s: Store, ids: seq<string>, id: string)
    ensures forall c | c in ClaimCommands(s, ids) && c.Del? :: Inflight(id) !in c.keys
    decreases |ids|
  {
    if |ids| > 0 {
      ClaimSparesMarkers(s, ids[..|ids| - 1], id);
    }
  }

  lemma OnlyAckDropsMarkers(s: Store, e: Event, id: string)
    requires e != Ack(id)
    ensures forall c | c in Commands(s, e) && c.Del? :: Inflight(id) !in c.keys
  {
    match e
    case Claim(ids) => ClaimSparesMarkers(s, ids, id);
    case _ =>
  }

  /** However many writes of a claim land, an approved order keeps a copy. */
  lemma {:induction false} ClaimKeepsSecured(s: Store, ids: seq<string>, landed: nat, pushed: map<string, Order>, now: int,
                                             o: Order, d: int)
    requires Faithful(s, pushed) && InWindows(s, now) && forall id | id in ids :: Approved(id) in s
    requires Secured(s, o, d) && landed <= |ClaimCommands(s, ids)|
    ensures Secured(PerformAll(s, ClaimCommands(s, ids)[..landed], now), o, d)
    decreases |ids|
  {
    var n := |ids|;
    if n == 0 {
      assert ClaimCommands(s, ids)[..landed] == [];
    } else {
      var earlier, one := ClaimCommands(s, ids[..n - 1]), ClaimOne(s, ids[n - 1]);
      if landed <= |earlier| {
        assert (earlier + one)[..landed] == earlier[..landed];
        ClaimKeepsSecured(s, ids[..n - 1], landed, pushed, now, o, d);
      } else {
        assert (earlier + one)[..landed] == earlier + one[..landed - |earlier|];
        assert earlier[..|earlier|] == earlier;
        ClaimKeepsSecured(s, ids[..n - 1], |earlier|, pushed, now, o, d);
        PerformConcat(s, earlier, one[..landed - |earlier|], now);
        ClaimFits(s, ids[..n - 1], pushed);
        WritesKeepFaith(s, earlier, pushed, now);
        assert ids[n - 1] in ids && EntryFits(Approved(ids[n - 1]), s[Approved(ids[n - 1])].value, pushed);
        OneClaimKeepsSecured(PerformAll(s, earlier, now), s, ids[n - 1], landed - |earlier|, pushed, now, o, d);
      }
    }
  }

  lemma OneClaimKeepsSecured(t: Store, s: Store, id: string, landed: nat, pushed: map<string, Order>, now: int, o: Order, d: int)
    requires Faithful(t, pushed) && InWindows(t, now) && Secured(t, o, d)
    requires id in pushed && OrderAt(s, Approved(id)) == Some(pushed[id])
    requires landed <= |ClaimOne(s, id)|
    ensures Secured(PerformAll(t, ClaimOne(s, id)[..landed], now), o, d)
  {
    var one := ClaimOne(s, id)[..landed];
    if landed < 2 || id != o.id {
      assert AllFit(one, pushed);
      SparedKeepsSecured(t, one, pushed, now, o, d);
    } else {
      PerformOneOrTwo(t, one, now);
      assert o == pushed[id] by {
        if HeldAt(t, Approved(o.id), o, d) {
          assert EntryFits(Approved(o.id), t[Approved(o.id)].value, pushed);
        } else {
          assert EntryFits(Inflight(o.id), t[Inflight(o.id)].value, pushed);
        }
      }
    }
  }

  lemma StepKeepsSecured(st: State, step: Step, o: Order, d: int)
    requires Faithful(st.store, st.pushed) && InWindows(st.store, step.now) && Enabled(st, step)
    requires Secured(st.store, o, d) && step.now <= d && step.event != Ack(o.id)
    ensures Secured(Next(st, step).store, o, d)
  {
    StepKeepsFaith(st, step);
    var s, pushed := Purge(st.store, step.now), Next(st, step).pushed;
    assert Secured(s, o, d);
    var cs := Commands(s, step.event);
    if step.event.Claim? {
      assert cs[..|cs|] == cs;
      ClaimKeepsSecured(s, step.event.ids, if step.landed < |cs| then step.landed else |cs|, pushed, step.now, o, d);
    } else {
      SparedByOthers(s, step.event, o.id);
      SparedKeepsSecured(s, Landing(s, step), pushed, step.now, o, d);
    }
  }

  lemma SparedByOthers(s: Store, e: Event, id: string)
    requires !e.Claim? && e != Ack(id)
    ensures forall c | c in Commands(s, e) :: Spares(c, id)
  {
  }

  lemma StepKeepsMarker(st: State, step: Step, o: Order, d: int)
    requires Faithful(st.store, st.pushed) && InWindows(st.store, step.now) && Enabled(st, step)
    requires HeldAt(st.store, Inflight(o.id), o, d) && step.now <= d && step.event != Ack(o.id)
    ensures HeldAt(Next(st, step).store, Inflight(o.id), o, d)
  {
    StepKeepsFaith(st, step);
    var s := Purge(st.store, step.now);
    OnlyAckDropsMarkers(s, step.event, o.id);
    assert HeldAt(s, Inflight(o.id), o, d);
    InflightSurvives(s, Landing(s, step), Next(st, step).pushed, step.now, o, d);
  }

  // ----- Whole runs -----

  ghost predicate NoAck(steps: seq<Step>, i: nat, j: nat, id: string)
    requires j <= |steps|
  {
    forall k | i <= k < j :: steps[k].event != Ack(id)
  }

  ghost predicate Before(steps: seq<Step>, j: nat, t: int)
    requires j <= |steps|
  {
    forall k | 0 <= k < j :: steps[k].now <= t
  }

  lemma {:induction false} SecuredUntil(states: seq<State>, steps: seq<Step>, i: nat, j: nat, o: Order, d: int)
    requires IsRun(states, steps) && i <= j <= |steps| && Secured(states[i].store, o, d)
    requires NoAck(steps, i, j, o.id) && Before(steps, j, d)
    ensures Secured(states[j].store, o, d)
    decreases j
  {
    if i < j {
      SecuredUntil(states, steps, i, j - 1, o, d);
      RunsAreFaithful(states, steps, j - 1, steps[j - 1].now);
      assert Follows(states, steps, j - 1);
      StepKeepsSecured(states[j - 1], steps[j - 1], o, d);
    }
  }

  lemma {:induction false} MarkedUntil(states: seq<State>, steps: seq<Step>, i: nat, j: nat, o: Order, d: int)
    requires IsRun(states, steps) && i <= j <= |steps| && HeldAt(states[i].store, Inflight(o.id), o, d)
    requires NoAck(steps, i, j, o.id) && Before(steps, j, d)
    ensures HeldAt(states[j].store, Inflight(o.id), o, d)
    decreases j
  {
    if i < j {
      MarkedUntil(states, steps, i, j - 1, o, d);
      RunsAreFaithful(states, steps, j - 1, steps[j - 1].now);
      assert Follows(states, steps, j - 1);
      StepKeepsMarker(states[j - 1], steps[j - 1], o, d);
    }
  }

  /**
   A human approves the live pending order `o` in step `i` and at least the first write lands.
   Then at every later instant of the approval window the order is approved or in flight, whatever
   crashed in between, unless it was acknowledged.
   */
  lemma ApprovedOrderIsNeverLost(states: seq<State>, steps: seq<Step>, i: nat, j: nat, o: Order, t: int)
    requires IsRun(states, steps) && i < j <= |steps|
    requires steps[i].event == Approve(o.id) && steps[i].landed >= 1
    requires OrderAt(Purge(states[i].store, steps[i].now), Pending(o.id)) == Some(o)
    requires NoAck(steps, i, j, o.id) && Before(steps, j, t) && t <= steps[i].now + 600_000
    ensures var s := Purge(states[j].store, t);
            OrderAt(s, Approved(o.id)) == Some(o) || OrderAt(s, Inflight(o.id)) == Some(o)
  {
    assert Follows(states, steps, i);
    var s := Purge(states[i].store, steps[i].now);
    var landed := Landing(s, steps[i]);
    PerformOneOrTwo(s, landed, steps[i].now);
    SecuredUntil(states, steps, i + 1, j, o, t);
  }

  lemma {:induction false} MarkerLanded(s: Store, cs: seq<Command>, pushed: map<string, Order>, now: int, o: Order)
    requires Faithful(s, pushed) && InWindows(s, now) && AllFit(cs, pushed)
    requires Put(Inflight(o.id), Blob(o), INFLIGHT_WINDOW) in cs
    requires forall c | c in cs && c.Del? :: Inflight(o.id) !in c.keys
    ensures HeldAt(PerformAll(s, cs, now), Inflight(o.id), o, now + INFLIGHT_WINDOW)
    decreases |cs|
  {
    var n := |cs|;
    if cs[n - 1] != Put(Inflight(o.id), Blob(o), INFLIGHT_WINDOW) {
      MarkerLanded(s, cs[..n - 1], pushed, now, o);
      WritesKeepFaith(s, cs[..n - 1], pushed, now);
      assert CommandFits(cs[n - 1], pushed);
      SparedKeepsHeld(PerformAll(s, cs[..n - 1], now), cs[n - 1], pushed, now, Inflight(o.id), o, now + INFLIGHT_WINDOW);
    }
  }

  /**
   Step `i` claims approved orders and the marker of `o` lands, whether or not the process dies
   right after it or while executing. At every later instant of the marker's day the order is
   listed by `recover_orphaned_inflight`, unless it was acknowledged.
   */
  lemma ClaimedOrderIsAlwaysListed(states: seq<State>, steps: seq<Step>, i: nat, j: nat, o: Order, t: int)
    requires IsRun(states, steps) && i < j <= |steps| && steps[i].event.Claim?
    requires Put(Inflight(o.id), Blob(o), 86_400_000) in Landing(Purge(states[i].store, steps[i].now), steps[i])
    requires NoAck(steps, i, j, o.id) && Before(steps, j, t) && t <= steps[i].now + 86_400_000
    ensures o in RecoverOrphanedInflight(Purge(states[j].store, t))
  {
    assert Follows(states, steps, i);
    RunsAreFaithful(states, steps, i, steps[i].now);
    StepKeepsFaith(states[i], steps[i]);
    var s := Purge(states[i].store, steps[i].now);
    OnlyAckDropsMarkers(s, steps[i].event, o.id);
    MarkerLanded(s, Landing(s, steps[i]), Next(states[i], steps[i]).pushed, steps[i].now, o);
    MarkedUntil(states, steps, i + 1, j, o, t);
    var final := Purge(states[j].store, t);
    assert Inflight(o.id) in final && final[Inflight(o.id)].value == Blob(o);
  }

  /** A claim whose writes all land has written the marker of every order it lists. */
  lemma {:induction false} ClaimWritesMarkers(s: Store, ids: seq<string>, o: Order)
    requires o.id in ids && o.id != "" && OrderAt(s, Approved(o.id)) == Some(o)
    ensures Put(Inflight(o.id), Blob(o), 86_400_000) in ClaimCommands(s, ids)
    decreases |ids|
  {
    var n := |ids|;
    if ids[n - 1] == o.id {
      assert ClaimOne(s, o.id)[0] == Put(Inflight(o.id), Blob(o), INFLIGHT_WINDOW);
    } else {
      ClaimWritesMarkers(s, ids[..n - 1], o);
    }
  }
}
