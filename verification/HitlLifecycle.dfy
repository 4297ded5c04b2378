/**
 The way of one order through the approval queue (core/hitl_queue.py): what is pushed can be approved,
 what is approved is handed to the trading loop, and what is acknowledged is no longer recovered.
 */
module HitlLifecycle {
  import opened Options
  import opened TtlMap
  import opened HitlQueue
  import opened HitlIndex
  import D = HitlDurability
  import X = HitlExclusivity

  /** The call is within the time of the order pushed in step `i` and does not settle its name. */
  predicate Quiet(states: seq<State>, steps: seq<Step>, i: nat, k: nat)
    requires i < k < |steps| && |states| == |steps| + 1 && steps[i].event.Push?
  {
    var px := steps[i].event.px;
    && (px != 0 ==> steps[k].now <= steps[i].now + px)
    && !Settles(Purge(states[k].store, steps[k].now), steps[k].event, NameOf(steps[i].event.order))
  }

  lemma {:induction false} PushedOrderWaitsOn(states: seq<State>, steps: seq<Step>, i: nat, j: nat)
    requires IsRun(states, steps) && i < j <= |steps|
    requires steps[i].event.Push? && Whole(states[i].store, steps[i])
    requires forall k | i < k < j :: Quiet(states, steps, i, k)
    ensures Waits(states[j].store, steps[i].event.order, DeadlineOf(steps[i].event.px, steps[i].now))
    decreases j
  {
    var k := j - 1;
    RunsAreFaithful(states, steps, k, steps[k].now);
    RunsKeepIndex(states, steps, k);
    assert Follows(states, steps, k);
    if k == i {
      PushedOrderWaits(states[k], steps[k]);
    } else {
      PushedOrderWaitsOn(states, steps, i, k);
      assert Quiet(states, steps, i, k);
      StepKeepsWaiting(states[k], steps[k], steps[i].event.order, DeadlineOf(steps[i].event.px, steps[i].now));
    }
  }

  /** An order that was pushed and not settled is listed, and approving it within its time hands out that order. */
  lemma PushedOrderCanBeApproved(states: seq<State>, steps: seq<Step>, i: nat, j: nat, t: int)
    requires IsRun(states, steps) && i < j <= |steps|
    requires steps[i].event.Push? && Whole(states[i].store, steps[i])
    requires forall k | i < k < j :: Quiet(states, steps, i, k)
    requires steps[i].event.px != 0 ==> t <= steps[i].now + steps[i].event.px
    ensures var s, o := Purge(states[j].store, t), steps[i].event.order;
            OrderAt(s, Pending(o.id)) == Some(o) && o in GetPending(s)
  {
    PushedOrderWaitsOn(states, steps, i, j);
    var s, o := Purge(states[j].store, t), steps[i].event.order;
    assert Pending(o.id) in s && s[Pending(o.id)].value == Blob(o);
  }

  ghost predicate PendingUntil(s: Store, id: string, d: int) {
    Pending(id) in s ==> s[Pending(id)].deadline == Some(d)
  }

  lemma {:induction false} UnwrittenKeepsDeadline(s: Store, cs: seq<Command>, now: int, id: string, d: int)
    requires PendingUntil(s, id, d) && forall c | c in cs && c.Put? :: c.key != Pending(id)
    ensures PendingUntil(PerformAll(s, cs, now), id, d)
    decreases |cs|
  {
    if |cs| > 0 {
      UnwrittenKeepsDeadline(s, cs[..|cs| - 1], now, id, d);
    }
  }

  lemma OnlyItsPushWrites(s: Store, e: Event, id: string)
    requires e.Push? ==> e.order.id != id
    ensures forall c | c in Commands(s, e) && c.Put? :: c.key != Pending(id)
  {
    if e.Claim? {
      X.ClaimShape(s, e.ids, id);
    }
  }

  lemma PushSetsDeadline(s: Store, step: Step, pushed: map<string, Order>)
    requires Faithful(s, pushed) && step.event.Push? && step.event.order.id !in pushed && step.event.px != 0
    ensures PendingUntil(PerformAll(s, Landing(s, step), step.now), step.event.order.id, step.now + step.event.px)
  {
    PushLandings(s, step);
    assert Pending(step.event.order.id) in s ==>
        EntryFits(Pending(step.event.order.id), s[Pending(step.event.order.id)].value, pushed);
  }

  lemma {:induction false} PendingKeepsItsDeadline(states: seq<State>, steps: seq<Step>, i: nat, j: nat)
    requires IsRun(states, steps) && i < j <= |steps| && steps[i].event.Push? && steps[i].event.px != 0
    ensures steps[i].event.order.id in states[j].pushed
    ensures PendingUntil(states[j].store, steps[i].event.order.id, steps[i].now + steps[i].event.px)
    decreases j
  {
    var id, k := steps[i].event.order.id, j - 1;
    assert Follows(states, steps, k);
    var s := Purge(states[k].store, steps[k].now);
    if k == i {
      RunsAreFaithful(states, steps, i, steps[i].now);
      PushSetsDeadline(s, steps[i], states[i].pushed);
    } else {
      PendingKeepsItsDeadline(states, steps, i, k);
      OnlyItsPushWrites(s, steps[k].event, id);
      UnwrittenKeepsDeadline(s, Landing(s, steps[k]), steps[k].now, id, steps[i].now + steps[i].event.px);
    }
  }

  /** After its time a pushed order can no longer be approved, whatever happened in between. */
  lemma PushedOrderLapses(states: seq<State>, steps: seq<Step>, i: nat, j: nat, t: int)
    requires IsRun(states, steps) && i < j <= |steps| && steps[i].event.Push? && steps[i].event.px != 0
    requires steps[i].now + steps[i].event.px < t
    ensures OrderAt(Purge(states[j].store, t), Pending(steps[i].event.order.id)) == None
  {
    PendingKeepsItsDeadline(states, steps, i, j);
  }

  // ----- From approval to the trading loop -----

  lemma StepKeepsApproved(st: State, step: Step, o: Order, d: int)
    requires Faithful(st.store, st.pushed) && InWindows(st.store, step.now) && Enabled(st, step)
    requires D.HeldAt(st.store, Approved(o.id), o, d) && step.now <= d && !step.event.Claim?
    ensures D.HeldAt(Next(st, step).store, Approved(o.id), o, d)
  {
    StepKeepsFaith(st, step);
    var s := Purge(st.store, step.now);
    assert D.HeldAt(s, Approved(o.id), o, d);
    ApprovedSurvives(s, Landing(s, step), Next(st, step).pushed, step.now, o, d);
  }

  lemma {:induction false} ApprovedSurvives(s: Store, cs: seq<Command>, pushed: map<string, Order>, now: int, o: Order, d: int)
    requires Faithful(s, pushed) && InWindows(s, now) && AllFit(cs, pushed)
    requires D.HeldAt(s, Approved(o.id), o, d)
    requires forall c | c in cs && c.Del? :: Approved(o.id) !in c.keys
    ensures D.HeldAt(PerformAll(s, cs, now), Approved(o.id), o, d)
    decreases |cs|
  {
    var n := |cs|;
    if n > 0 {
      ApprovedSurvives(s, cs[..n - 1], pushed, now, o, d);
      WritesKeepFaith(s, cs[..n - 1], pushed, now);
      assert CommandFits(cs[n - 1], pushed);
      D.SparedKeepsHeld(PerformAll(s, cs[..n - 1], now), cs[n - 1], pushed, now, Approved(o.id), o, d);
    }
  }

  lemma {:induction false} ApprovedUntilClaimed(states: seq<State>, steps: seq<Step>, i: nat, j: nat, o: Order, d: int)
    requires IsRun(states, steps) && i <= j <= |steps| && D.HeldAt(states[i].store, Approved(o.id), o, d)
    requires forall k | i <= k < j :: !steps[k].event.Claim? && steps[k].now <= d
    ensures D.HeldAt(states[j].store, Approved(o.id), o, d)
    decreases j
  {
    if i < j {
      ApprovedUntilClaimed(states, steps, i, j - 1, o, d);
      RunsAreFaithful(states, steps, j - 1, steps[j - 1].now);
      assert Follows(states, steps, j - 1);
      StepKeepsApproved(states[j - 1], steps[j - 1], o, d);
    }
  }

  lemma {:induction false} ClaimHandsOut(s: Store, ids: seq<string>, o: Order)
    requires o.id in ids && o.id != "" && OrderAt(s, Approved(o.id)) == Some(o)
    ensures o in ClaimedOrders(s, ids)
    decreases |ids|
  {
    var n := |ids|;
    if ids[n - 1] != o.id {
      ClaimHandsOut(s, ids[..n - 1], o);
    }
  }

  lemma FirstWriteApproves(states: seq<State>, steps: seq<Step>, i: nat, o: Order)
    requires IsRun(states, steps) && i < |steps|
    requires steps[i].event == Approve(o.id) && steps[i].landed >= 1
    requires OrderAt(Purge(states[i].store, steps[i].now), Pending(o.id)) == Some(o)
    ensures o.id != "" && D.HeldAt(states[i + 1].store, Approved(o.id), o, steps[i].now + 600_000)
  {
    assert Follows(states, steps, i);
    var s := Purge(states[i].store, steps[i].now);
    ApproveLandings(s, steps[i], o.id);
    RunsAreFaithful(states, steps, i, steps[i].now);
    assert EntryFits(Pending(o.id), states[i].store[Pending(o.id)].value, states[i].pushed);
  }

  lemma ClaimFindsApproved(states: seq<State>, steps: seq<Step>, j: nat, o: Order)
    requires IsRun(states, steps) && j < |steps| && steps[j].event.Claim? && o.id != ""
    requires D.HeldAt(states[j].store, Approved(o.id), o, steps[j].now)
    ensures var c := Purge(states[j].store, steps[j].now);
            o.id in steps[j].event.ids && OrderAt(c, Approved(o.id)) == Some(o) && o in ClaimedOrders(c, steps[j].event.ids)
  {
    assert Follows(states, steps, j);
    var c := Purge(states[j].store, steps[j].now);
    assert Approved(o.id) in c;
    ClaimHandsOut(c, steps[j].event.ids, o);
  }

  lemma WholeClaimIsRecovered(states: seq<State>, steps: seq<Step>, j: nat, o: Order)
    requires IsRun(states, steps) && j < |steps| && steps[j].event.Claim? && o.id in steps[j].event.ids && o.id != ""
    requires OrderAt(Purge(states[j].store, steps[j].now), Approved(o.id)) == Some(o) && Whole(states[j].store, steps[j])
    ensures o in RecoverOrphanedInflight(Purge(states[j + 1].store, steps[j].now))
  {
    D.ClaimWritesMarkers(Purge(states[j].store, steps[j].now), steps[j].event.ids, o);
    D.ClaimedOrderIsAlwaysListed(states, steps, j, j + 1, o, steps[j].now);
  }

  /**
   A human approves the live pending order in step `i` and the first write lands; the first claim of
   the next ten minutes hands it to the trading loop, and if it is not cut off the order is listed for
   recovery at once.
   */
  lemma ApprovedOrderIsHandedOut(states: seq<State>, steps: seq<Step>, i: nat, j: nat, o: Order)
    requires IsRun(states, steps) && i < j < |steps|
    requires steps[i].event == Approve(o.id) && steps[i].landed >= 1
    requires OrderAt(Purge(states[i].store, steps[i].now), Pending(o.id)) == Some(o)
    requires forall k | i < k < j :: !steps[k].event.Claim?
    requires steps[j].event.Claim? && steps[j].now <= steps[i].now + 600_000
    ensures o in ClaimedOrders(Purge(states[j].store, steps[j].now), steps[j].event.ids)
    ensures Whole(states[j].store, steps[j]) ==> o in RecoverOrphanedInflight(Purge(states[j + 1].store, steps[j].now))
  {
    FirstWriteApproves(states, steps, i, o);
    ApprovedUntilClaimed(states, steps, i + 1, j, o, steps[j].now);
    ClaimFindsApproved(states, steps, j, o);
    if Whole(states[j].store, steps[j]) {
      WholeClaimIsRecovered(states, steps, j, o);
    }
  }

  // ----- From execution to the acknowledgement -----

  lemma OnlyClaimsMark(s: Store, e: Event, id: string)
    requires !e.Claim?
    ensures forall c | c in Commands(s, e) && c.Put? :: c.key != Inflight(id)
  {
  }

  lemma {:induction false} UnmarkedUntilClaimed(states: seq<State>, steps: seq<Step>, i: nat, j: nat, id: string)
    requires IsRun(states, steps) && i <= j <= |steps| && Inflight(id) !in states[i].store
    requires forall k | i <= k < j :: !steps[k].event.Claim?
    ensures Inflight(id) !in states[j].store
    decreases j
  {
    if i < j {
      UnmarkedUntilClaimed(states, steps, i, j - 1, id);
      assert Follows(states, steps, j - 1);
      var s := Purge(states[j - 1].store, steps[j - 1].now);
      OnlyClaimsMark(s, steps[j - 1].event, id);
      X.StaysAbsent(s, Landing(s, steps[j - 1]), steps[j - 1].now, Inflight(id));
    }
  }

  /** Once acknowledged an order is no longer listed for recovery, as long as nothing is claimed again. */
  lemma AcknowledgedIsNotRecovered(states: seq<State>, steps: seq<Step>, i: nat, j: nat, o: Order, t: int)
    requires IsRun(states, steps) && i < j <= |steps|
    requires steps[i].event == Ack(o.id) && steps[i].landed >= 1 && o.id != ""
    requires forall k | i < k < j :: !steps[k].event.Claim?
    requires forall k | 0 <= k < j :: steps[k].now <= t
    ensures o !in RecoverOrphanedInflight(Purge(states[j].store, t))
  {
    assert Follows(states, steps, i);
    var s := Purge(states[i].store, steps[i].now);
    PerformOneOrTwo(s, Landing(s, steps[i]), steps[i].now);
    UnmarkedUntilClaimed(states, steps, i + 1, j, o.id);
    RunsAreFaithful(states, steps, j, t);
    var final := Purge(states[j].store, t);
    forall k | k in final && k.Inflight? ensures final[k].value == Blob(o) ==> k.id == o.id {
      assert EntryFits(k, states[j].store[k].value, states[j].pushed);
    }
  }
}
