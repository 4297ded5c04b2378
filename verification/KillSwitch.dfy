/**
 The kill switch (core/kill_switch.py): flags in each process, a halt and a trip record in the
 durable store, and two separate writes in every trip and every reset, between which processes may
 die or interleave. The scope "" is the whole system, any other scope a user.
 */
module KillSwitch {
  import opened Options

  datatype Trip = Trip(reason: string, scope: string, at: int)

  datatype Store = Store(halts: set<string>, trips: map<string, Trip>)

  datatype Memory = Memory(halted: bool, users: set<string>, lastTrip: Option<Trip>)

  const CLEAR := Memory(false, {}, None)

  // ----- The pure parts of one call -----

  predicate StoredHalt(s: Store, user: string) {
    "" in s.halts || user in s.halts
  }

  /** A store that cannot be read is logged and passed over. */
  predicate IsHalted(s: Store, m: Memory, user: string, readable: bool) {
    m.halted || (user != "" && user in m.users) || (readable && StoredHalt(s, user))
  }

  /** What `is_halted` remembers of the store. */
  function Latched(s: Store, m: Memory, user: string, readable: bool): Memory {
    if m.halted || (user != "" && user in m.users) || !readable then m
    else if "" in s.halts then m.(halted := true)
    else if user != "" && user in s.halts then m.(users := m.users + {user})
    else m
  }

  function Flagged(m: Memory, t: Trip): Memory {
    if t.scope == "" then m.(halted := true, lastTrip := Some(t))
    else m.(users := m.users + {t.scope}, lastTrip := Some(t))
  }

  function Cleared(m: Memory, user: string): Memory {
    if user == "" then CLEAR else m.(users := m.users - {user}, lastTrip := None)
  }

  /** The stored record of a scope; one without a reason counts as missing. */
  function StoredTrip(s: Store, user: string, readable: bool): Option<Trip> {
    if readable && user in s.trips && s.trips[user].reason != "" then Some(s.trips[user]) else None
  }

  function Booted(s: Store, readable: bool): Memory {
    CLEAR.(lastTrip := if readable && "" in s.halts then StoredTrip(s, "", readable) else None)
  }

  // ----- Processes and their write-by-write steps -----

  /** Between the two writes of a trip, or of a reset, of a scope. */
  datatype Stage = Ready | RecordWritten(user: string) | HaltDeleted(user: string)

  datatype Process = Process(memory: Memory, stage: Stage)

  datatype State = State(store: Store, procs: map<nat, Process>)

  /** `lands`: the write reaches the store instead of raising. */
  datatype Event =
    | Boot(p: nat, readable: bool)
    | Die(p: nat)
    | Ask(p: nat, user: string, readable: bool)
    | BeginTrip(p: nat, trip: Trip, readable: bool, lands: bool)
    | FinishTrip(p: nat, lands: bool)
    | BeginReset(p: nat, user: string, lands: bool)
    | FinishReset(p: nat, lands: bool)

  predicate Enabled(st: State, e: Event) {
    match e
    case Boot(p, _) => p !in st.procs
    case Die(p) => p in st.procs
    case FinishTrip(p, _) => p in st.procs && st.procs[p].stage.RecordWritten?
    case FinishReset(p, _) => p in st.procs && st.procs[p].stage.HaltDeleted?
    case _ => e.p in st.procs && st.procs[e.p].stage.Ready?
  }

  function Next(st: State, e: Event): State
    requires Enabled(st, e)
  {
    var s := st.store;
    match e
    case Boot(p, readable) => st.(procs := st.procs[p := Process(Booted(s, readable), Ready)])
    case Die(p) => st.(procs := st.procs - {p})
    case Ask(p, user, readable) =>
      st.(procs := st.procs[p := Process(Latched(s, st.procs[p].memory, user, readable), Ready)])
    case BeginTrip(p, t, readable, lands) =>
      var m := Latched(s, st.procs[p].memory, t.scope, readable);
      if IsHalted(s, st.procs[p].memory, t.scope, readable) then st.(procs := st.procs[p := Process(m, Ready)])
      else State(if lands then s.(trips := s.trips[t.scope := t]) else s,
                 st.procs[p := Process(Flagged(m, t), RecordWritten(t.scope))])
    case FinishTrip(p, lands) =>
      State(if lands then s.(halts := s.halts + {st.procs[p].stage.user}) else s,
            st.procs[p := Process(st.procs[p].memory, Ready)])
    case BeginReset(p, user, lands) =>
      // A delete that raises skips the second one.
      State(if lands then s.(halts := s.halts - {user}) else s,
            st.procs[p := Process(Cleared(st.procs[p].memory, user), if lands then HaltDeleted(user) else Ready)])
    case FinishReset(p, lands) =>
      State(if lands then s.(trips := s.trips - {st.procs[p].stage.user}) else s,
            st.procs[p := Process(st.procs[p].memory, Ready)])
  }

  ghost predicate Follows(states: seq<State>, events: seq<Event>, i: nat)
    requires i < |events| && |states| == |events| + 1
  {
    Enabled(states[i], events[i]) && states[i + 1] == Next(states[i], events[i])
  }

  ghost predicate IsRun(states: seq<State>, events: seq<Event>) {
    && |states| == |events| + 1
    && states[0] == State(Store({}, map[]), map[])
    && forall i | 0 <= i < |events| :: Follows(states, events, i)
  }

  // ----- A stored halt stays -----

  predicate ResetLands(e: Event, user: string) {
    e.BeginReset? && e.user == user && e.lands
  }

  lemma {:induction false} StoredHaltStays(states: seq<State>, events: seq<Event>, i: nat, j: nat, user: string)
    requires IsRun(states, events) && i <= j <= |events| && user in states[i].store.halts
    requires forall k | i <= k < j :: !ResetLands(events[k], user)
    ensures user in states[j].store.halts
    decreases j
  {
    if i < j {
      StoredHaltStays(states, events, i, j - 1, user);
      assert Follows(states, events, j - 1);
    }
  }

  /**
   Once the halt write of a trip lands, every process that can read the store answers halted, for
   everyone if the trip was global and for the user otherwise: now, after any number of restarts,
   and whatever other scopes are reset, until a reset of this scope deletes the halt.
   */
  lemma HaltIsDurable(states: seq<State>, events: seq<Event>, i: nat, j: nat, user: string, p: nat, asked: string)
    requires IsRun(states, events) && i < j <= |events|
    requires events[i].FinishTrip? && events[i].lands
    requires events[i].p in states[i].procs && states[i].procs[events[i].p].stage == RecordWritten(user)
    requires forall k | i < k < j :: !ResetLands(events[k], user)
    requires p in states[j].procs && (user == "" || asked == user)
    ensures IsHalted(states[j].store, states[j].procs[p].memory, asked, true)
  {
    assert Follows(states, events, i);
    StoredHaltStays(states, events, i + 1, j, user);
  }

  // ----- A stored halt has its record -----

  /** The trip of the event is not turned away as already halted. */
  predicate Proceeds(st: State, e: Event)
    requires Enabled(st, e)
  {
    e.BeginTrip? && !IsHalted(st.store, st.procs[e.p].memory, e.trip.scope, e.readable)
  }

  ghost predicate SomeoneIn(st: State, stage: Stage) {
    exists p :: p in st.procs && st.procs[p].stage == stage
  }

  /**
   What can cost a halt its record: a trip whose record is neither written nor there already, a
   trip that starts while a reset of its scope is between its deletes, and a reset whose first
   delete lands while a trip of its scope is between its writes.
   */
  ghost predicate Breach(st: State, e: Event, user: string)
    requires Enabled(st, e)
  {
    || (Proceeds(st, e) && e.trip.scope == user && !e.lands && user !in st.store.trips)
    || (Proceeds(st, e) && e.trip.scope == user && SomeoneIn(st, HaltDeleted(user)))
    || (ResetLands(e, user) && SomeoneIn(st, RecordWritten(user)))
  }

  ghost predicate ScopeOk(st: State, user: string) {
    && (user in st.store.halts ==> user in st.store.trips && !SomeoneIn(st, HaltDeleted(user)))
    && (SomeoneIn(st, RecordWritten(user)) ==> user in st.store.trips && !SomeoneIn(st, HaltDeleted(user)))
  }

  lemma StagesAfter(st: State, e: Event, user: string)
    requires Enabled(st, e)
    ensures var next := Next(st, e);
            && (SomeoneIn(next, RecordWritten(user)) ==>
                  SomeoneIn(st, RecordWritten(user)) || (Proceeds(st, e) && e.trip.scope == user))
            && (SomeoneIn(next, HaltDeleted(user)) ==> SomeoneIn(st, HaltDeleted(user)) || ResetLands(e, user))
  {
    var next := Next(st, e);
    forall p | p in next.procs && p != e.p ensures p in st.procs && next.procs[p] == st.procs[p] {
    }
  }

  lemma StepKeepsScope(st: State, e: Event, user: string)
    requires Enabled(st, e) && ScopeOk(st, user) && !Breach(st, e, user)
    ensures ScopeOk(Next(st, e), user)
  {
    StagesAfter(st, e, user);
    if e.FinishTrip? {
      assert SomeoneIn(st, st.procs[e.p].stage);
    } else if e.FinishReset? {
      assert SomeoneIn(st, st.procs[e.p].stage);
    }
  }

  /**
   With deaths possible between any two writes, any number of processes tripping or resetting at
   once, and halt writes and deletes failing, a stored halt always has its stored record as long as
   no breach occurred on its scope.
   */
  lemma {:induction false} HaltHasItsRecord(states: seq<State>, events: seq<Event>, i: nat, user: string)
    requires IsRun(states, events) && i <= |events|
    requires forall k | 0 <= k < i :: Enabled(states[k], events[k]) && !Breach(states[k], events[k], user)
    ensures ScopeOk(states[i], user)
    ensures user in states[i].store.halts ==> user in states[i].store.trips
    decreases i
  {
    if i > 0 {
      HaltHasItsRecord(states, events, i - 1, user);
      assert Follows(states, events, i - 1);
      StepKeepsScope(states[i - 1], events[i - 1], user);
    }
  }

  ghost predicate BreachAt(states: seq<State>, events: seq<Event>, k: nat, user: string)
    requires k < |events| <= |states|
  {
    Enabled(states[k], events[k]) && Breach(states[k], events[k], user)
  }

  /** A halt without a record can only come from a breach earlier in the run. */
  lemma LostRecordHasACause(states: seq<State>, events: seq<Event>, i: nat, user: string)
    requires IsRun(states, events) && i <= |events|
    requires user in states[i].store.halts && user !in states[i].store.trips
    ensures exists k :: 0 <= k < i && BreachAt(states, events, k, user)
  {
    if forall k | 0 <= k < i :: !BreachAt(states, events, k, user) {
      forall k | 0 <= k < i ensures Enabled(states[k], events[k]) && !Breach(states[k], events[k], user) {
        assert Follows(states, events, k) && !BreachAt(states, events, k, user);
      }
      HaltHasItsRecord(states, events, i, user);
    }
  }

  /** And no part of the condition can be spared: after any breach two more steps can strip the halt. */
  lemma EveryBreachCanStrip(st: State, e: Event, user: string) returns (a: Event, b: Event)
    requires Enabled(st, e) && Breach(st, e, user)
    ensures Enabled(Next(st, e), a) && Enabled(Next(Next(st, e), a), b)
    ensures var end := Next(Next(Next(st, e), a), b); user in end.store.halts && user !in end.store.trips
  {
    if ResetLands(e, user) && SomeoneIn(st, RecordWritten(user)) {
      var p :| p in st.procs && st.procs[p].stage == RecordWritten(user);
      a, b := FinishReset(e.p, true), FinishTrip(p, true);
    } else if SomeoneIn(st, HaltDeleted(user)) {
      var p :| p in st.procs && st.procs[p].stage == HaltDeleted(user);
      a, b := FinishTrip(e.p, true), FinishReset(p, true);
    } else {
      a, b := FinishTrip(e.p, true), Die(e.p);
    }
  }

  predicate LandsIfItWrites(e: Event) {
    e.BeginTrip? || e.FinishTrip? || e.BeginReset? || e.FinishReset? ==> e.lands
  }

  function OverlapEvent(t: Trip, k: nat): Event {
    match k
    case 0 => Boot(0, true)
    case 1 => Boot(1, true)
    case 2 => BeginTrip(0, t, true, true)
    case 3 => BeginReset(1, t.scope, true)
    case 4 => FinishReset(1, true)
    case _ => FinishTrip(0, true)
  }

  function OverlapState(t: Trip, k: nat): State {
    var tripping := Flagged(CLEAR, t);
    var halts: set<string> := if k < 6 then {} else {t.scope};
    var trips: map<string, Trip> := if 3 <= k < 5 then map[t.scope := t] else map[];
    var first := Process(if k < 3 then CLEAR else tripping, if 3 <= k < 6 then RecordWritten(t.scope) else Ready);
    var second := Process(CLEAR, if k == 4 then HaltDeleted(t.scope) else Ready);
    State(Store(halts, trips), if k == 0 then map[] else if k == 1 then map[0 := first] else map[0 := first, 1 := second])
  }

  lemma OverlapFollows(t: Trip, k: nat)
    requires k < 6
    ensures Enabled(OverlapState(t, k), OverlapEvent(t, k))
    ensures Next(OverlapState(t, k), OverlapEvent(t, k)) == OverlapState(t, k + 1)
  {
    var next, expected := Next(OverlapState(t, k), OverlapEvent(t, k)), OverlapState(t, k + 1);
    assert next.store.halts == expected.store.halts && next.store.trips == expected.store.trips;
    assert next.procs == expected.procs;
  }

  /** A reset that runs between the two writes of another process's trip leaves a halt without a record. */
  lemma OverlappingResetStripsTheRecord(t: Trip) returns (states: seq<State>, events: seq<Event>)
    ensures IsRun(states, events) && forall e | e in events :: LandsIfItWrites(e)
    ensures var store := states[|events|].store; t.scope in store.halts && t.scope !in store.trips
  {
    states := seq(7, k requires k >= 0 => OverlapState(t, k));
    events := seq(6, k requires k >= 0 => OverlapEvent(t, k));
    forall k | 0 <= k < 6 ensures Follows(states, events, k) {
      OverlapFollows(t, k);
    }
  }

  // ----- A lost halt write -----

  /** Only process `p` acts, and it neither dies nor resets the system. */
  ghost predicate OnlyActs(events: seq<Event>, i: nat, j: nat, p: nat)
    requires j <= |events|
  {
    forall k | i <= k < j :: events[k].p == p && !events[k].Die? && !(events[k].BeginReset? && events[k].user == "")
  }

  /** Between the writes of a global trip the process is already halted. */
  lemma {:induction false} TrippingIsHalted(states: seq<State>, events: seq<Event>, i: nat, p: nat)
    requires IsRun(states, events) && i <= |events| && p in states[i].procs && states[i].procs[p].stage == RecordWritten("")
    ensures states[i].procs[p].memory.halted
    decreases i
  {
    assert Follows(states, events, i - 1);
    if p in states[i - 1].procs && states[i - 1].procs[p].stage == RecordWritten("") {
      TrippingIsHalted(states, events, i - 1, p);
    }
  }

  /**
   If the halt write of a global trip fails, the process itself stays halted, but however often it
   is tripped again the write is not repeated: the next process starts unhalted.
   */
  lemma {:induction false} FailedHaltIsNeverRetried(states: seq<State>, events: seq<Event>, i: nat, j: nat, p: nat)
    requires IsRun(states, events) && i < j <= |events| && OnlyActs(events, i + 1, j, p)
    requires events[i] == FinishTrip(p, false) && p in states[i].procs && states[i].procs[p].stage == RecordWritten("")
    requires "" !in states[i].store.halts
    ensures p in states[j].procs && states[j].procs[p].memory.halted
    ensures states[j].procs[p].stage != RecordWritten("") && "" !in states[j].store.halts
    decreases j
  {
    assert Follows(states, events, j - 1);
    TrippingIsHalted(states, events, i, p);
    if i + 1 < j {
      FailedHaltIsNeverRetried(states, events, i, j - 1, p);
    }
  }

  // ----- The switch of one process -----

  class DurableStore {
    var halts: set<string>
    var trips: map<string, Trip>

    constructor ()
      ensures Contents() == Store({}, map[])
    {
      halts, trips := {}, map[];
    }

    ghost function Contents(): Store
      reads this
    {
      Store(halts, trips)
    }
  }

  class Switch {
    const store: DurableStore
    var localHalted: bool
    var userHalted: set<string>
    var lastTrip: Option<Trip>

    ghost function Flags(): Memory
      reads this
    {
      Memory(localHalted, userHalted, lastTrip)
    }

    constructor (store: DurableStore, readable: bool)
      ensures this.store == store && Flags() == Booted(store.Contents(), readable)
      ensures !localHalted && userHalted == {}
      ensures lastTrip == if readable && "" in store.halts && "" in store.trips && store.trips[""].reason != ""
                          then Some(store.trips[""]) else None
    {
      this.store := store;
      localHalted, userHalted := false, {};
      lastTrip := if readable && "" in store.halts && "" in store.trips && store.trips[""].reason != ""
                  then Some(store.trips[""]) else None;
    }

    method AskHalted(user: string, readable: bool) returns (halted: bool)
      modifies `localHalted, `userHalted
      ensures halted == IsHalted(store.Contents(), old(Flags()), user, readable)
      ensures halted <==> old(localHalted) || (user != "" && user in old(userHalted)) ||
                          (readable && ("" in store.halts || user in store.halts))
      ensures Flags() == Latched(store.Contents(), old(Flags()), user, readable)
    {
      if localHalted {
        return true;
      }
      if user != "" && user in userHalted {
        return true;
      }
      if readable {
        if "" in store.halts {
          localHalted := true;
          return true;
        }
        if user != "" && user in store.halts {
          userHalted := userHalted + {user};
          return true;
        }
      }
      halted := false;
    }

    /** A trip while halted changes nothing durable; otherwise the record is written before the halt. */
    method TripSwitch(t: Trip, readable: bool, recordLands: bool, haltLands: bool)
      requires this as object != store as object
      modifies this, store
      ensures IsHalted(old(store.Contents()), old(Flags()), t.scope, readable) ==>
                && store.Contents() == old(store.Contents())
                && Flags() == Latched(old(store.Contents()), old(Flags()), t.scope, readable)
      ensures !IsHalted(old(store.Contents()), old(Flags()), t.scope, readable) ==>
                && Flags() == Flagged(old(Flags()), t)
                && store.trips == (if recordLands then old(store.trips)[t.scope := t] else old(store.trips))
                && store.halts == (if haltLands then old(store.halts) + {t.scope} else old(store.halts))
      ensures localHalted || (t.scope != "" && t.scope in userHalted)
    {
      var halted := AskHalted(t.scope, readable);
      if halted {
        return;
      }
      lastTrip := Some(t);
      if t.scope == "" {
        localHalted := true;
      } else {
        userHalted := userHalted + {t.scope};
      }
      if recordLands {
        store.trips := store.trips[t.scope := t];
      }
      if haltLands {
        store.halts := store.halts + {t.scope};
      }
    }

    method ResetSwitch(user: string, haltLands: bool, recordLands: bool)
      requires this as object != store as object
      modifies this, store
      ensures Flags() == Cleared(old(Flags()), user)
      ensures if user == "" then !localHalted && userHalted == {} else localHalted == old(localHalted) && userHalted == old(userHalted) - {user}
      ensures store.halts == if haltLands then old(store.halts) - {user} else old(store.halts)
      ensures store.trips == if haltLands && recordLands then old(store.trips) - {user} else old(store.trips)
    {
      if user == "" {
        localHalted := false;
        userHalted := {};
      } else {
        userHalted := userHalted - {user};
      }
      if haltLands {
        store.halts := store.halts - {user};
        if recordLands {
          store.trips := store.trips - {user};
        }
      }
      lastTrip := None;
    }

    /** `halt_beim_start_raeumen`: starting is allowed exactly when nothing is halted, and clears nothing. */
    method MayStart(readable: bool) returns (ok: bool)
      modifies `localHalted, `userHalted
      ensures ok == !IsHalted(store.Contents(), old(Flags()), "", readable)
      ensures ok <==> !old(localHalted) && !(readable && "" in store.halts)
      ensures old(IsHalted(store.Contents(), Flags(), "", readable)) ==> localHalted
      ensures lastTrip == old(lastTrip)
    {
      var halted := AskHalted("", readable);
      ok := !halted;
    }
  }
}
