/**
 Who is halted by a kill switch (core/kill_switch.py): the process that trips it is, whatever the store
 does, and nobody is without a trip.
 */
module KillSwitchHalts {
  import opened Options
  import opened KillSwitch

  /** The process remembers a halt of this scope. */
  predicate Remembers(m: Memory, scope: string) {
    m.halted || (scope != "" && scope in m.users)
  }

  /** In the process `p` nothing ends the halt of `scope`: it neither dies nor resets the scope or the system. */
  predicate Spares(e: Event, p: nat, scope: string) {
    e.p == p ==> !e.Die? && !(e.BeginReset? && (e.user == scope || e.user == ""))
  }

  lemma TripIsRemembered(st: State, e: Event)
    requires Enabled(st, e) && e.BeginTrip?
    ensures var next := Next(st, e); e.p in next.procs && Remembers(next.procs[e.p].memory, e.trip.scope)
  {
  }

  lemma StepKeepsMemory(st: State, e: Event, p: nat, scope: string)
    requires Enabled(st, e) && p in st.procs && Remembers(st.procs[p].memory, scope) && Spares(e, p, scope)
    ensures p in Next(st, e).procs && Remembers(Next(st, e).procs[p].memory, scope)
  {
  }

  lemma {:induction false} MemoryStays(states: seq<State>, events: seq<Event>, i: nat, j: nat, p: nat, scope: string)
    requires IsRun(states, events) && i <= j <= |events|
    requires p in states[i].procs && Remembers(states[i].procs[p].memory, scope)
    requires forall k | i <= k < j :: Spares(events[k], p, scope)
    ensures p in states[j].procs && Remembers(states[j].procs[p].memory, scope)
    decreases j
  {
    if i < j {
      MemoryStays(states, events, i, j - 1, p, scope);
      assert Follows(states, events, j - 1);
      StepKeepsMemory(states[j - 1], events[j - 1], p, scope);
    }
  }

  /**
   A trip halts its own process at once and for as long as it lives, whether or not any write lands or the
   store can be read, and whatever other processes do: for everyone if it was global and for the user
   otherwise, until this process itself resets that scope or the system.
   */
  lemma TripHaltsItsProcess(states: seq<State>, events: seq<Event>, i: nat, j: nat, p: nat, t: Trip, asked: string, readable: bool)
    requires IsRun(states, events) && i < j <= |events|
    requires events[i].BeginTrip? && events[i].p == p && events[i].trip == t
    requires forall k | i < k < j :: Spares(events[k], p, t.scope)
    requires t.scope == "" || asked == t.scope
    ensures p in states[j].procs && IsHalted(states[j].store, states[j].procs[p].memory, asked, readable)
  {
    assert Follows(states, events, i);
    TripIsRemembered(states[i], events[i]);
    MemoryStays(states, events, i + 1, j, p, t.scope);
  }

  /**
   A process that has once read a stored halt stays halted when the store can no longer be read, or the
   halt was deleted by another process, until it resets that scope or the system itself.
   */
  lemma AnswerIsRemembered(states: seq<State>, events: seq<Event>, i: nat, j: nat, p: nat, user: string, readable: bool)
    requires IsRun(states, events) && i < j <= |events| && events[i] == Ask(p, user, true)
    requires "" in states[i].store.halts || user in states[i].store.halts
    requires forall k | i < k < j :: Spares(events[k], p, user)
    ensures p in states[j].procs && IsHalted(states[j].store, states[j].procs[p].memory, user, readable)
  {
    assert Follows(states, events, i);
    MemoryStays(states, events, i + 1, j, p, user);
  }

  // ----- A trip that is not cut off reaches the store -----

  lemma {:induction false} TripWaitsForItsSecondWrite(states: seq<State>, events: seq<Event>, i: nat, j: nat, p: nat, scope: string)
    requires IsRun(states, events) && i <= j <= |events| && p in states[i].procs && states[i].procs[p].stage == RecordWritten(scope)
    requires forall k | i <= k < j :: events[k].p != p
    ensures p in states[j].procs && states[j].procs[p].stage == RecordWritten(scope)
    decreases j
  {
    if i < j {
      TripWaitsForItsSecondWrite(states, events, i, j - 1, p, scope);
      assert Follows(states, events, j - 1);
    }
  }

  /** The first write is the trip's record; the process's next step, if it lands, stores the halt. */
  lemma TripReachesTheStore(states: seq<State>, events: seq<Event>, i: nat, j: nat, p: nat, t: Trip, readable: bool)
    requires IsRun(states, events) && i < j < |events| && events[i] == BeginTrip(p, t, readable, true) && p in states[i].procs
    requires !Remembers(states[i].procs[p].memory, t.scope)
    requires readable ==> "" !in states[i].store.halts && t.scope !in states[i].store.halts
    requires (forall k | i < k < j :: events[k].p != p) && events[j].p == p && !events[j].Die?
    ensures t.scope in states[i + 1].store.trips && states[i + 1].store.trips[t.scope] == t
    ensures events[j].FinishTrip? && (events[j].lands ==> t.scope in states[j + 1].store.halts)
  {
    assert Follows(states, events, i) && Follows(states, events, j);
    TripWaitsForItsSecondWrite(states, events, i + 1, j, p, t.scope);
  }

  // ----- Nobody is halted without a trip -----

  ghost predicate Tripped(events: seq<Event>, i: nat, scope: string)
    requires i <= |events|
  {
    exists k | 0 <= k < i :: events[k].BeginTrip? && events[k].trip.scope == scope
  }

  ghost predicate OnlyTripped(procs: map<nat, Process>, halts: set<string>, tripped: iset<string>) {
    && (forall u | u in halts :: u in tripped)
    && forall p | p in procs ::
         && (procs[p].memory.halted ==> "" in tripped)
         && (forall u | u in procs[p].memory.users :: u in tripped)
         && (procs[p].stage.RecordWritten? ==> procs[p].stage.user in tripped)
  }

  ghost function TrippedScopes(events: seq<Event>, i: nat): iset<string>
    requires i <= |events|
  {
    iset u | Tripped(events, i, u)
  }

  lemma StepHaltsOnlyTripped(st: State, e: Event, before: iset<string>, after: iset<string>)
    requires Enabled(st, e) && OnlyTripped(st.procs, st.store.halts, before)
    requires before <= after && (e.BeginTrip? ==> e.trip.scope in after)
    ensures OnlyTripped(Next(st, e).procs, Next(st, e).store.halts, after)
  {
  }

  lemma {:induction false} RunsHaltOnlyTripped(states: seq<State>, events: seq<Event>, i: nat)
    requires IsRun(states, events) && i <= |events|
    ensures OnlyTripped(states[i].procs, states[i].store.halts, TrippedScopes(events, i))
    decreases i
  {
    if i > 0 {
      RunsHaltOnlyTripped(states, events, i - 1);
      assert Follows(states, events, i - 1);
      StepHaltsOnlyTripped(states[i - 1], events[i - 1], TrippedScopes(events, i - 1), TrippedScopes(events, i));
    }
  }

  /** Any halted answer, over any run, goes back to a trip of the system or of that user. */
  lemma HaltHasATrip(states: seq<State>, events: seq<Event>, i: nat, p: nat, asked: string, readable: bool)
    requires IsRun(states, events) && i <= |events| && p in states[i].procs
    requires IsHalted(states[i].store, states[i].procs[p].memory, asked, readable)
    ensures Tripped(events, i, "") || Tripped(events, i, asked)
  {
    RunsHaltOnlyTripped(states, events, i);
  }

  // ----- What a reset ends -----

  /**
   A reset whose first delete lands ends the halt of its scope for its process and in the store: a system
   reset every halt but those stored for users, a user's reset the user's unless the system is halted.
   */
  lemma ResetReleasesItsScope(states: seq<State>, events: seq<Event>, i: nat, user: string, asked: string, readable: bool)
    requires IsRun(states, events) && i < |events| && ResetLands(events[i], user)
    requires asked == user || (user == "" && asked !in states[i].store.halts)
    requires events[i].p in states[i].procs
    requires user == "" || (!states[i].procs[events[i].p].memory.halted && "" !in states[i].store.halts)
    ensures events[i].p in states[i + 1].procs
    ensures !IsHalted(states[i + 1].store, states[i + 1].procs[events[i].p].memory, asked, readable)
  {
    assert Follows(states, events, i);
  }
}
