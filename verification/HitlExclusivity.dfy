/**
 One decision per order (core/hitl_queue.py): an approval is in one place at a time and is claimed
 at most once, never after it was rejected or superseded. Each result names the calls that must
 not be cut off by a crash for it to hold.
 */
module HitlExclusivity {
  import opened Options
  import opened TtlMap
  import opened HitlQueue
  import opened HitlIndex

  lemma {:induction false} StaysAbsent(s: Store, cs: seq<Command>, now: int, key: Key)
    requires key !in s && forall c | c in cs :: c.Put? ==> c.key != key
    ensures key !in PerformAll(s, cs, now)
    decreases |cs|
  {
    if |cs| > 0 {
      StaysAbsent(s, cs[..|cs| - 1], now, key);
    }
  }

  lemma {:induction false} DroppedForGood(s: Store, cs: seq<Command>, now: int, key: Key, drop: Command)
    requires drop in cs && drop.Del? && key in drop.keys && forall c | c in cs :: c.Put? ==> c.key != key
    ensures key !in PerformAll(s, cs, now)
    decreases |cs|
  {
    var n := |cs|;
    if cs[n - 1] != drop {
      DroppedForGood(s, cs[..n - 1], now, key, drop);
    }
  }

  lemma {:induction false} ClaimShape(s: Store, ids: seq<string>, id: string)
    ensures forall c | c in ClaimCommands(s, ids) && c.Put? :: c.key.Inflight?
    ensures id in ids ==> Del({Approved(id)}) in ClaimCommands(s, ids)
    decreases |ids|
  {
    var n := |ids|;
    if n > 0 {
      ClaimShape(s, ids[..n - 1], id);
      if ids[n - 1] == id {
        var one := ClaimOne(s, id);
        assert one[|one| - 1] == Del({Approved(id)});
      }
    }
  }

  /** Markers are written only for approved orders that are being claimed. */
  lemma {:induction false} ClaimMarksClaimed(s: Store, ids: seq<string>, pushed: map<string, Order>, id: string)
    requires Faithful(s, pushed) && id !in ids
    ensures forall c | c in ClaimCommands(s, ids) && c.Put? :: c.key != Inflight(id)
    decreases |ids|
  {
    var n := |ids|;
    if n > 0 {
      ClaimMarksClaimed(s, ids[..n - 1], pushed, id);
      assert Approved(ids[n - 1]) in s ==> EntryFits(Approved(ids[n - 1]), s[Approved(ids[n - 1])].value, pushed);
    }
  }

  /** Not pending and approved at once. */
  ghost predicate Undecided(s: Store, id: string) {
    Pending(id) !in s || Approved(id) !in s
  }

  /** At most one of pending, approved and in flight. */
  ghost predicate InOnePlace(s: Store, id: string) {
    Undecided(s, id) && (Inflight(id) in s ==> Pending(id) !in s && Approved(id) !in s)
  }

  lemma FreshIsNowhere(s: Store, pushed: map<string, Order>, id: string)
    requires Faithful(s, pushed) && id !in pushed
    ensures Pending(id) !in s && Approved(id) !in s && Inflight(id) !in s
  {
    assert forall k | k in s :: EntryFits(k, s[k].value, pushed);
  }

  /** An approval of the live pending order `id` that is cut off between its two writes. */
  predicate TornApproval(st: State, step: Step, id: string) {
    step.event == Approve(id) && step.landed == 1 && OrderAt(Purge(st.store, step.now), Pending(id)).Some?
  }

  /** A claim that is cut off between the marker of `id` and the delete that follows it. */
  predicate TornClaim(st: State, step: Step, id: string) {
    && step.event.Claim?
    && step.landed < |ClaimCommands(Purge(st.store, step.now), step.event.ids)|
    && step.landed % 2 == 1 && step.landed / 2 < |step.event.ids| && step.event.ids[step.landed / 2] == id
  }

  /** One step makes an id pending and approved at once exactly when it is such an approval of it. */
  lemma UndecidedExactly(st: State, step: Step, id: string)
    requires Faithful(st.store, st.pushed) && Enabled(st, step) && Undecided(st.store, id)
    ensures Undecided(Next(st, step).store, id) <==> !TornApproval(st, step, id)
  {
    var s := Purge(st.store, step.now);
    var landing := Landing(s, step);
    match step.event
    case Approve(x) =>
      ApproveLandings(s, step, x);
    case Push(o, _) =>
      if id == o.id {
        FreshIsNowhere(st.store, st.pushed, id);
        StaysAbsent(s, landing, step.now, Approved(id));
      } else {
        UnwrittenStaysUndecided(s, landing, step.now, id);
      }
    case Claim(ids) =>
      ClaimShape(s, ids, id);
      UnwrittenStaysUndecided(s, landing, step.now, id);
    case _ =>
      UnwrittenStaysUndecided(s, landing, step.now, id);
  }

  lemma UnwrittenStaysUndecided(s: Store, cs: seq<Command>, now: int, id: string)
    requires Undecided(s, id) && forall c | c in cs && c.Put? :: c.key != Pending(id) && c.key != Approved(id)
    ensures Undecided(PerformAll(s, cs, now), id)
  {
    StaysAbsent(s, cs, now, if Pending(id) in s then Approved(id) else Pending(id));
  }

  lemma {:induction false} ClaimTwoEach(s: Store, ids: seq<string>, pushed: map<string, Order>)
    requires Faithful(s, pushed) && forall id | id in ids :: Approved(id) in s
    ensures |ClaimCommands(s, ids)| == 2 * |ids|
    decreases |ids|
  {
    var n := |ids|;
    if n > 0 {
      ClaimTwoEach(s, ids[..n - 1], pushed);
      assert ids[n - 1] in ids && EntryFits(Approved(ids[n - 1]), s[Approved(ids[n - 1])].value, pushed);
    }
  }

  lemma {:induction false} ClaimPrefix(s: Store, ids: seq<string>, j: nat)
    requires j <= |ids|
    ensures ClaimCommands(s, ids[..j]) <= ClaimCommands(s, ids)
    decreases |ids|
  {
    var n := |ids|;
    if j < n {
      ClaimPrefix(s, ids[..n - 1], j);
      assert ids[..n - 1][..j] == ids[..j];
    } else {
      assert ids[..j] == ids;
    }
  }

  lemma ClaimOneFits(s: Store, id: string, pushed: map<string, Order>)
    requires Faithful(s, pushed) && Approved(id) in s
    ensures ClaimOne(s, id) == [Put(Inflight(id), s[Approved(id)].value, INFLIGHT_WINDOW), Del({Approved(id)})]
  {
    assert EntryFits(Approved(id), s[Approved(id)].value, pushed);
  }

  /** After `2 * j` writes of a claim `j` orders have moved. */
  lemma ClaimLandsEven(s: Store, ids: seq<string>, j: nat, pushed: map<string, Order>)
    requires Faithful(s, pushed) && j <= |ids| && forall id | id in ids :: Approved(id) in s
    ensures |ClaimCommands(s, ids)| == 2 * |ids| && ClaimCommands(s, ids)[..2 * j] == ClaimCommands(s, ids[..j])
  {
    ClaimTwoEach(s, ids, pushed);
    ClaimTwoEach(s, ids[..j], pushed);
    ClaimPrefix(s, ids, j);
  }

  /** One write later the next marker stands as well. */
  lemma ClaimLandsOdd(s: Store, ids: seq<string>, j: nat, pushed: map<string, Order>, now: int)
    requires Faithful(s, pushed) && j < |ids| && forall id | id in ids :: Approved(id) in s
    ensures |ClaimCommands(s, ids)| == 2 * |ids|
    ensures PerformAll(s, ClaimCommands(s, ids)[..2 * j + 1], now) ==
            Write(PerformAll(s, ClaimCommands(s, ids[..j]), now), Inflight(ids[j]), s[Approved(ids[j])].value, INFLIGHT_WINDOW, now)
  {
    ClaimLandsEven(s, ids, j, pushed);
    ClaimCommandAt(s, ids, j, pushed);
    PutAfter(s, ClaimCommands(s, ids), 2 * j, ClaimCommands(s, ids[..j]), now);
  }

  lemma PutAfter(s: Store, cs: seq<Command>, k: nat, before: seq<Command>, now: int)
    requires k < |cs| && cs[..k] == before && cs[k].Put?
    ensures PerformAll(s, cs[..k + 1], now) == Write(PerformAll(s, before, now), cs[k].key, cs[k].value, cs[k].px, now)
  {
    PerformPrefix(s, cs, k, now);
  }

  lemma ClaimCommandAt(s: Store, ids: seq<string>, j: nat, pushed: map<string, Order>)
    requires Faithful(s, pushed) && j < |ids| && forall id | id in ids :: Approved(id) in s
    ensures 2 * j < |ClaimCommands(s, ids)|
    ensures ClaimCommands(s, ids)[2 * j] == Put(Inflight(ids[j]), s[Approved(ids[j])].value, INFLIGHT_WINDOW)
  {
    ClaimTwoEach(s, ids[..j], pushed);
    ClaimPrefix(s, ids, j + 1);
    assert ids[..j + 1][..j] == ids[..j];
    assert ids[j] in ids;
    ClaimOneFits(s, ids[j], pushed);
    var upTo := ClaimCommands(s, ids[..j + 1]);
    assert upTo == ClaimCommands(s, ids[..j]) + ClaimOne(s, ids[j]);
    assert upTo[2 * j] == ClaimCommands(s, ids)[2 * j];
  }

  lemma ClaimCutInside(s: Store, ids: seq<string>, j: nat, pushed: map<string, Order>, now: int, id: string)
    requires Faithful(s, pushed) && Lists(s, ids) && InOnePlace(s, id) && j < |ids|
    ensures 2 * j + 1 <= |ClaimCommands(s, ids)|
    ensures InOnePlace(PerformAll(s, ClaimCommands(s, ids)[..2 * j + 1], now), id) <==> ids[j] != id
  {
    ClaimLandsOdd(s, ids, j, pushed, now);
    PairsKeepOnePlace(s, ids[..j], pushed, now, id);
    if ids[j] == id {
      assert id in ids && id !in ids[..j];
      ApprovedIsUntouched(s, ids[..j], now, id);
    }
  }

  /** A claim moves `id` whole, leaves it, or is cut off between its two writes. */
  lemma ClaimOnePlaceExactly(s: Store, ids: seq<string>, landed: nat, pushed: map<string, Order>, now: int, id: string)
    requires Faithful(s, pushed) && Lists(s, ids) && InOnePlace(s, id) && landed <= |ClaimCommands(s, ids)|
    ensures InOnePlace(PerformAll(s, ClaimCommands(s, ids)[..landed], now), id) <==>
            !(landed % 2 == 1 && landed / 2 < |ids| && ids[landed / 2] == id)
  {
    var j := landed / 2;
    ClaimTwoEach(s, ids, pushed);
    if landed % 2 == 1 {
      assert landed == 2 * j + 1;
      ClaimCutInside(s, ids, j, pushed, now, id);
    } else {
      assert landed == 2 * j;
      ClaimLandsEven(s, ids, j, pushed);
      PairsKeepOnePlace(s, ids[..j], pushed, now, id);
    }
  }

  lemma {:induction false} ApprovedIsUntouched(s: Store, ids: seq<string>, now: int, id: string)
    requires id !in ids
    ensures Approved(id) in PerformAll(s, ClaimCommands(s, ids), now) <==> Approved(id) in s
    decreases |ids|
  {
    var n := |ids|;
    if n > 0 {
      ApprovedIsUntouched(s, ids[..n - 1], now, id);
      var earlier, one := ClaimCommands(s, ids[..n - 1]), ClaimOne(s, ids[n - 1]);
      PerformConcat(s, earlier, one, now);
      OneClaimTouchesItsOwn(PerformAll(s, earlier, now), s, ids[n - 1], now, id);
    }
  }

  lemma OneClaimTouchesItsOwn(t: Store, s: Store, claimed: string, now: int, id: string)
    requires id != claimed
    ensures Approved(id) in PerformAll(t, ClaimOne(s, claimed), now) <==> Approved(id) in t
  {
    PerformOneOrTwo(t, ClaimOne(s, claimed), now);
  }

  lemma PairsKeepOnePlace(s: Store, ids: seq<string>, pushed: map<string, Order>, now: int, id: string)
    requires Faithful(s, pushed) && InOnePlace(s, id) && forall x | x in ids :: Approved(x) in s
    ensures InOnePlace(PerformAll(s, ClaimCommands(s, ids), now), id)
    ensures id !in ids ==> (Inflight(id) in PerformAll(s, ClaimCommands(s, ids), now) ==> Inflight(id) in s)
  {
    var cs := ClaimCommands(s, ids);
    ClaimShape(s, ids, id);
    if id in ids {
      DroppedForGood(s, cs, now, Approved(id), Del({Approved(id)}));
      StaysAbsent(s, cs, now, Pending(id));
    } else {
      ClaimMarksClaimed(s, ids, pushed, id);
      AbsentStayAbsent(s, cs, now, id);
      if Inflight(id) !in s {
        StaysAbsent(s, cs, now, Inflight(id));
      }
    }
  }

  lemma ApproveOnePlaceExactly(st: State, step: Step, id: string)
    requires step.event.Approve? && InOnePlace(st.store, id)
    ensures InOnePlace(Next(st, step).store, id) <==> !TornApproval(st, step, id)
  {
    ApproveLandings(Purge(st.store, step.now), step, step.event.id);
  }

  lemma ClaimStepOnePlaceExactly(st: State, step: Step, id: string)
    requires step.event.Claim? && Faithful(st.store, st.pushed) && Enabled(st, step) && InOnePlace(st.store, id)
    ensures InOnePlace(Next(st, step).store, id) <==> !TornClaim(st, step, id)
  {
    var s, ids := Purge(st.store, step.now), step.event.ids;
    var cs := ClaimCommands(s, ids);
    assert cs[..|cs|] == cs && Faithful(s, st.pushed);
    ClaimTwoEach(s, ids, st.pushed);
    ClaimOnePlaceExactly(s, ids, if step.landed < |cs| then step.landed else |cs|, st.pushed, step.now, id);
  }

  lemma PushKeepsOnePlace(st: State, step: Step, id: string)
    requires step.event.Push? && Faithful(st.store, st.pushed) && Enabled(st, step) && InOnePlace(st.store, id)
    ensures InOnePlace(Next(st, step).store, id)
  {
    var s := Purge(st.store, step.now);
    if id == step.event.order.id {
      FreshIsNowhere(st.store, st.pushed, id);
      StaysAbsent(s, Landing(s, step), step.now, Approved(id));
      StaysAbsent(s, Landing(s, step), step.now, Inflight(id));
    } else {
      AbsentStayAbsent(s, Landing(s, step), step.now, id);
    }
  }

  lemma DropKeepsOnePlace(st: State, step: Step, id: string)
    requires (step.event.Reject? || step.event.Ack?) && InOnePlace(st.store, id)
    ensures InOnePlace(Next(st, step).store, id)
  {
    var s := Purge(st.store, step.now);
    AbsentStayAbsent(s, Landing(s, step), step.now, id);
  }

  /** One step puts an id into two places exactly when it is cut off in its approval or its claim. */
  lemma OnePlaceExactly(st: State, step: Step, id: string)
    requires Faithful(st.store, st.pushed) && Enabled(st, step) && InOnePlace(st.store, id)
    ensures InOnePlace(Next(st, step).store, id) <==> !TornApproval(st, step, id) && !TornClaim(st, step, id)
  {
    match step.event
    case Approve(_) => ApproveOnePlaceExactly(st, step, id);
    case Claim(_) => ClaimStepOnePlaceExactly(st, step, id);
    case Push(_, _) => PushKeepsOnePlace(st, step, id);
    case _ => DropKeepsOnePlace(st, step, id);
  }

  lemma AbsentStayAbsent(s: Store, cs: seq<Command>, now: int, id: string)
    requires forall c | c in cs && c.Put? :: c.key !in {Pending(id), Approved(id), Inflight(id)}
    ensures InOnePlace(s, id) ==> InOnePlace(PerformAll(s, cs, now), id)
  {
    forall k | k in {Pending(id), Approved(id), Inflight(id)} && k !in s ensures k !in PerformAll(s, cs, now) {
      StaysAbsent(s, cs, now, k);
    }
  }

  // ----- Spent approvals -----

  /** An id that was drawn and can no longer be claimed. */
  ghost predicate Spent(st: State, id: string) {
    id in st.pushed && Pending(id) !in st.store && Approved(id) !in st.store
  }

  lemma StepKeepsSpent(st: State, step: Step, id: string)
    requires Enabled(st, step) && Spent(st, id)
    ensures Spent(Next(st, step), id)
  {
    var s := Purge(st.store, step.now);
    if step.event.Claim? {
      ClaimShape(s, step.event.ids, id);
    }
    StaysAbsent(s, Landing(s, step), step.now, Pending(id));
    StaysAbsent(s, Landing(s, step), step.now, Approved(id));
  }

  // ----- Whole runs -----

  ghost predicate NoTornApproval(states: seq<State>, steps: seq<Step>, i: nat, id: string)
    requires i <= |steps| <= |states|
  {
    forall k | 0 <= k < i :: !TornApproval(states[k], steps[k], id)
  }

  ghost predicate NoTornClaim(states: seq<State>, steps: seq<Step>, i: nat, id: string)
    requires i <= |steps| <= |states|
  {
    forall k | 0 <= k < i :: !TornClaim(states[k], steps[k], id)
  }

  lemma {:induction false} RunsKeepUndecided(states: seq<State>, steps: seq<Step>, i: nat, id: string)
    requires IsRun(states, steps) && i <= |steps| && NoTornApproval(states, steps, i, id)
    ensures Undecided(states[i].store, id)
    decreases i
  {
    if i > 0 {
      RunsKeepUndecided(states, steps, i - 1, id);
      RunsAreFaithful(states, steps, i - 1, steps[i - 1].now);
      assert Follows(states, steps, i - 1);
      UndecidedExactly(states[i - 1], steps[i - 1], id);
    }
  }

  /** While no approval and no claim of it is cut off between its two writes, an id is in one place. */
  lemma {:induction false} EveryApprovalIsInOnePlace(states: seq<State>, steps: seq<Step>, i: nat, id: string)
    requires IsRun(states, steps) && i <= |steps|
    requires NoTornApproval(states, steps, i, id) && NoTornClaim(states, steps, i, id)
    ensures InOnePlace(states[i].store, id)
    decreases i
  {
    if i > 0 {
      EveryApprovalIsInOnePlace(states, steps, i - 1, id);
      RunsAreFaithful(states, steps, i - 1, steps[i - 1].now);
      assert Follows(states, steps, i - 1);
      OnePlaceExactly(states[i - 1], steps[i - 1], id);
    }
  }

  lemma {:induction false} SpentForever(states: seq<State>, steps: seq<Step>, i: nat, j: nat, id: string)
    requires IsRun(states, steps) && i <= j <= |steps| && Spent(states[i], id)
    ensures Spent(states[j], id)
    decreases j
  {
    if i < j {
      SpentForever(states, steps, i, j - 1, id);
      assert Follows(states, steps, j - 1);
      StepKeepsSpent(states[j - 1], steps[j - 1], id);
    }
  }

  lemma SpentIsNotClaimed(states: seq<State>, steps: seq<Step>, i: nat, j: nat, id: string)
    requires IsRun(states, steps) && i <= j < |steps| && Spent(states[i], id) && steps[j].event.Claim?
    ensures id !in steps[j].event.ids
  {
    SpentForever(states, steps, i, j, id);
    assert Follows(states, steps, j);
  }

  lemma KnownId(states: seq<State>, steps: seq<Step>, i: nat, k: Key)
    requires IsRun(states, steps) && i < |steps| && !k.Idx? && k in Purge(states[i].store, steps[i].now)
    ensures k.id in states[i + 1].pushed && (k.id in states[i].pushed)
  {
    RunsAreFaithful(states, steps, i, steps[i].now);
    assert EntryFits(k, states[i].store[k].value, states[i].pushed);
    assert Follows(states, steps, i);
  }

  /** Crashes may strike anywhere except between the two writes of an approval of this id. */
  lemma ClaimedAtMostOnce(states: seq<State>, steps: seq<Step>, i: nat, j: nat, id: string)
    requires IsRun(states, steps) && i < j < |steps| && NoTornApproval(states, steps, i, id)
    requires steps[i].event.Claim? && Whole(states[i].store, steps[i]) && id in steps[i].event.ids
    requires steps[j].event.Claim?
    ensures id !in steps[j].event.ids
  {
    RunsKeepUndecided(states, steps, i, id);
    assert Follows(states, steps, i);
    var s := Purge(states[i].store, steps[i].now);
    KnownId(states, steps, i, Approved(id));
    ClaimShape(s, steps[i].event.ids, id);
    DroppedForGood(s, Landing(s, steps[i]), steps[i].now, Approved(id), Del({Approved(id)}));
    StaysAbsent(s, Landing(s, steps[i]), steps[i].now, Pending(id));
    SpentIsNotClaimed(states, steps, i + 1, j, id);
  }

  lemma RejectedIsNeverClaimed(states: seq<State>, steps: seq<Step>, i: nat, j: nat, id: string)
    requires IsRun(states, steps) && i < j < |steps| && NoTornApproval(states, steps, i, id)
    requires steps[i].event == Reject(id) && steps[i].landed >= 1
    requires Pending(id) in Purge(states[i].store, steps[i].now)
    requires steps[j].event.Claim?
    ensures id !in steps[j].event.ids
  {
    RunsKeepUndecided(states, steps, i, id);
    assert Follows(states, steps, i);
    KnownId(states, steps, i, Pending(id));
    RejectLandings(Purge(states[i].store, steps[i].now), steps[i], id);
    SpentIsNotClaimed(states, steps, i + 1, j, id);
  }

  /** A push drops the pending order of the same name as its first write. */
  lemma SupersededIsNeverClaimed(states: seq<State>, steps: seq<Step>, i: nat, j: nat, id: string)
    requires IsRun(states, steps) && i < j < |steps| && NoTornApproval(states, steps, i, id)
    requires steps[i].event.Push? && steps[i].landed >= 1
    requires Read(Purge(states[i].store, steps[i].now), Idx(NameOf(steps[i].event.order))) == Some(Ref(id))
    requires steps[j].event.Claim?
    ensures id !in steps[j].event.ids
  {
    RunsKeepIndex(states, steps, i);
    RunsKeepUndecided(states, steps, i, id);
    assert Follows(states, steps, i);
    var s, o := Purge(states[i].store, steps[i].now), steps[i].event.order;
    PurgeKeepsIndex(states[i].store, states[i].pushed, steps[i].now);
    assert PointsToPending(s, NameOf(o), states[i].pushed);
    KnownId(states, steps, i, Pending(id));
    PushLandings(s, steps[i]);
    SpentIsNotClaimed(states, steps, i + 1, j, id);
  }

  lemma SingleClaim(s: Store, o: Order, now: int)
    requires o.id != "" && Approved(o.id) in s && s[Approved(o.id)].value == Blob(o)
    requires forall id | Approved(id) in s :: id == o.id
    ensures Lists(s, [o.id]) && |ClaimCommands(s, [o.id])| == 2
    ensures PerformAll(s, ClaimCommands(s, [o.id]), now)
            == Write(s, Inflight(o.id), Blob(o), INFLIGHT_WINDOW, now) - {Approved(o.id)}
  {
    assert [o.id][..0] == [];
    assert ClaimCommands(s, [o.id]) == [] + ClaimOne(s, o.id);
    PerformOneOrTwo(s, ClaimOne(s, o.id), now);
  }

  /** The stores of a run in which the approval of `o` is cut off after its first write. */
  function TornStore(o: Order, k: nat): Store {
    var waiting, idx := Cell(Blob(o), Some(1)), Cell(Ref(o.id), Some(1));
    var approved, marked := Cell(Blob(o), Some(APPROVED_WINDOW)), Cell(Blob(o), Some(INFLIGHT_WINDOW));
    if k == 0 then map[]
    else if k == 1 then map[Pending(o.id) := waiting, Idx(NameOf(o)) := idx]
    else if k == 2 then map[Pending(o.id) := waiting, Idx(NameOf(o)) := idx, Approved(o.id) := approved]
    else if k == 3 then map[Pending(o.id) := waiting, Idx(NameOf(o)) := idx, Inflight(o.id) := marked]
    else if k == 4 then map[Approved(o.id) := approved, Inflight(o.id) := marked]
    else map[Inflight(o.id) := marked]
  }

  function TornStep(o: Order, k: nat): Step {
    if k == 0 then Step(Push(o, 1), 0, 2)
    else if k == 1 then Step(Approve(o.id), 0, 1)
    else if k == 3 then Step(Approve(o.id), 0, 2)
    else Step(Claim([o.id]), 0, 2)
  }

  function TornState(o: Order, k: nat): State {
    State(TornStore(o, k), if k == 0 then map[] else map[o.id := o])
  }

  lemma TornStepFollows(o: Order, k: nat)
    requires o.id != "" && k < 5
    ensures Enabled(TornState(o, k), TornStep(o, k))
    ensures Next(TornState(o, k), TornStep(o, k)) == TornState(o, k + 1)
    ensures k != 1 ==> Whole(TornStore(o, k), TornStep(o, k))
  {
    assert Purge(TornStore(o, k), 0) == TornStore(o, k);
    if k == 0 {
      PushLandings(TornStore(o, 0), TornStep(o, 0));
      assert Queued(TornStore(o, 0), o, 1, 0) == TornStore(o, 1);
    } else if k == 1 || k == 3 {
      TornApproves(o, k);
    } else {
      TornClaims(o, k);
    }
  }

  lemma TornApproves(o: Order, k: nat)
    requires k == 1 || k == 3
    ensures var s := TornStore(o, k);
            && PerformAll(s, Landing(s, TornStep(o, k)), 0) == TornStore(o, k + 1)
            && |Commands(s, Approve(o.id))| == 2
  {
    var s := TornStore(o, k);
    ApproveLandings(s, TornStep(o, k), o.id);
    assert k == 3 ==>
        Write(s, Approved(o.id), Blob(o), APPROVED_WINDOW, 0) - {Pending(o.id), Idx(NameOf(o))} == TornStore(o, 4);
  }

  lemma TornClaims(o: Order, k: nat)
    requires o.id != "" && (k == 2 || k == 4)
    ensures var s := TornStore(o, k);
            && Lists(s, [o.id]) && |Commands(s, Claim([o.id]))| == 2
            && PerformAll(s, Landing(s, TornStep(o, k)), 0) == TornStore(o, k + 1)
  {
    var s := TornStore(o, k);
    SingleClaim(s, o, 0);
    assert Write(s, Inflight(o.id), Blob(o), INFLIGHT_WINDOW, 0) - {Approved(o.id)} == TornStore(o, k + 1);
  }

  /**
   An approval that is cut off after its first write leaves the order pending and approved: it is
   claimed, a human can approve it again, and it is claimed a second time.
   */
  lemma TornApprovalIsClaimedTwice(o: Order) returns (states: seq<State>, steps: seq<Step>)
    requires o.id != ""
    ensures IsRun(states, steps) && |steps| == 5
    ensures steps[1] == Step(Approve(o.id), 0, 1)
    ensures forall k | 0 <= k < 5 && k != 1 :: Whole(states[k].store, steps[k])
    ensures steps[2].event == Claim([o.id]) && steps[4].event == Claim([o.id])
  {
    states, steps := seq(6, k requires k >= 0 => TornState(o, k)), seq(5, k requires k >= 0 => TornStep(o, k));
    forall k | 0 <= k < 5 ensures Follows(states, steps, k) && (k != 1 ==> Whole(states[k].store, steps[k])) {
      TornStepFollows(o, k);
    }
  }
}
