/**
 The engine lease as a protocol of several processes (core/lease.py): acquiring, writing the note,
 renewing and taking over are separate store operations that other processes, crashes and the
 clock may interleave in any order.
 */
module LeaseProtocol {
  import opened Options
  import opened LeaseStore

  /** One incarnation of an engine; a process id of the operating system may be reused later. */
  datatype Process = Process(machine: nat, host: string, pid: int, alive: bool)

  /** How far an `EngineLease` object has come in `erwerben`. */
  datatype Stage =
    | Fresh                      // about to acquire, for the first time or after a takeover
    | Beaten                     // the row was taken
    | Suspects(note: Note)       // read a note of this host with another process id
    | Convinced(token: string)   // that process does not exist
    | Winner                     // has acquired at least once

  /** A lease object: its token is its key, `owner` the process that made it. */
  datatype Lease = Lease(owner: nat, stage: Stage)

  datatype State = State(row: Option<Row>, note: Option<Note>, procs: map<nat, Process>,
                         leases: map<string, Lease>, now: int)

  datatype Event =
    | Tick(to: int)
    | Start(p: nat, process: Process)
    | Crash(p: nat)
    | Open(token: string, p: nat)
    | TryAcquire(token: string)
    | ReadNote(token: string)
    | NoteGone                             // the note's time to live runs out
    | AskAlive(token: string, found: bool) // what `pid_exists` answers
    | BreakLock(token: string)
    | WriteNote(token: string)             // after an acquire or a renewal, however late
    | RenewLock(token: string)
    | ReleaseLock(token: string)

  function Owner(st: State, token: string): nat
    requires token in st.leases
  {
    st.leases[token].owner
  }

  /** The lease object exists and the process that made it lives. */
  predicate Runs(st: State, token: string) {
    token in st.leases && st.leases[token].owner in st.procs && st.procs[st.leases[token].owner].alive
  }

  ghost predicate SomeLiveProcess(st: State, machine: nat, pid: int) {
    exists p :: p in st.procs && st.procs[p].alive && st.procs[p].machine == machine && st.procs[p].pid == pid
  }

  ghost predicate Enabled(st: State, e: Event) {
    match e
    case Tick(to) => st.now <= to
    case Start(p, process) =>
      p !in st.procs && process.alive && process.pid > 0 && !SomeLiveProcess(st, process.machine, process.pid)
    case Crash(p) => p in st.procs
    case Open(token, p) => token != "" && token !in st.leases && p in st.procs && st.procs[p].alive
    case TryAcquire(token) => Runs(st, token) && st.leases[token].stage.Fresh?
    case ReadNote(token) => Runs(st, token) && st.leases[token].stage.Beaten?
    case NoteGone => true
    case AskAlive(token, found) =>
      // A live engine with that id is always found; so may be an unrelated process that reused it.
      && Runs(st, token) && st.leases[token].stage.Suspects?
      && (SomeLiveProcess(st, st.procs[Owner(st, token)].machine, st.leases[token].stage.note.pid) ==> found)
    case BreakLock(token) => Runs(st, token) && st.leases[token].stage.Convinced?
    case WriteNote(token) => Runs(st, token) && st.leases[token].stage.Winner?
    case RenewLock(token) => Runs(st, token) && st.leases[token].stage.Winner?
    case ReleaseLock(token) => Runs(st, token)
  }

  function SetStage(st: State, token: string, stage: Stage): State
    requires token in st.leases
  {
    st.(leases := st.leases[token := st.leases[token].(stage := stage)])
  }

  /** What `_uebernehmen_wenn_tot` makes of the note it read. */
  function AfterNote(note: Option<Note>, self: Process): Stage {
    if note.Some? && note.value.host == self.host && note.value.pid > 0 && note.value.pid != self.pid
    then Suspects(note.value)
    else Beaten
  }

  function Next(st: State, e: Event): State
    requires Enabled(st, e)
  {
    match e
    case Tick(to) => st.(now := to)
    case Start(p, process) => st.(procs := st.procs[p := process])
    case Crash(p) => st.(procs := st.procs[p := st.procs[p].(alive := false)])
    case Open(token, p) => st.(leases := st.leases[token := Lease(p, Fresh)])
    case TryAcquire(token) =>
      SetStage(st, token, if Free(st.row, st.now) then Winner else Beaten).(row := Acquire(st.row, token, st.now))
    case ReadNote(token) => SetStage(st, token, AfterNote(st.note, st.procs[Owner(st, token)]))
    case NoteGone => st.(note := None)
    case AskAlive(token, found) =>
      SetStage(st, token, if found then Beaten else Convinced(st.leases[token].stage.note.token))
    case BreakLock(token) =>
      var foreign := st.leases[token].stage.token;
      SetStage(st, token, if Breaks(st.row, foreign, token) then Fresh else Beaten).(row := Break(st.row, foreign, token))
    case WriteNote(token) =>
      var self := st.procs[Owner(st, token)];
      st.(note := Some(Note(self.host, self.pid, token)))
    case RenewLock(token) => st.(row := Renew(st.row, token, st.now))
    case ReleaseLock(token) => st.(row := Release(st.row, token))
  }

  ghost predicate IsRun(states: seq<State>, events: seq<Event>) {
    && |states| == |events| + 1
    && states[0].row.None? && states[0].note.None? && states[0].procs == map[] && states[0].leases == map[]
    && forall i | 0 <= i < |events| :: Follows(states, events, i)
  }

  ghost predicate Follows(states: seq<State>, events: seq<Event>, i: nat)
    requires i < |events| && |states| == |events| + 1
  {
    Enabled(states[i], events[i]) && states[i + 1] == Next(states[i], events[i])
  }

  // ----- What every reachable state satisfies -----

  /** A note names the process that made its token. */
  ghost predicate Genuine(st: State, note: Note) {
    && note.token in st.leases && Owner(st, note.token) in st.procs
    && st.procs[Owner(st, note.token)].host == note.host && st.procs[Owner(st, note.token)].pid == note.pid
  }

  /** Two processes with the same host name run on the same machine. */
  ghost predicate HostsIdentifyMachines(st: State) {
    forall p, q | p in st.procs && q in st.procs && st.procs[p].host == st.procs[q].host ::
      st.procs[p].machine == st.procs[q].machine
  }

  ghost predicate LeaseOk(st: State, token: string)
    requires token in st.leases
  {
    && Owner(st, token) in st.procs && token != ""
    && match st.leases[token].stage
       case Suspects(note) => Genuine(st, note) && note.host == st.procs[Owner(st, token)].host
       case Convinced(foreign) => foreign in st.leases && !Runs(st, foreign)
       case _ => true
  }

  ghost predicate Inv(st: State) {
    && (forall token | token in st.leases :: LeaseOk(st, token))
    && (st.note.Some? ==> Genuine(st, st.note.value))
    && (st.row.Some? ==> st.row.value.token in st.leases && st.row.value.expires <= st.now + TTL)
  }

  lemma StageKeepsInv(st: State, token: string, stage: Stage)
    requires Inv(st) && token in st.leases && LeaseOk(SetStage(st, token, stage), token)
    ensures Inv(SetStage(st, token, stage))
  {
    var next := SetStage(st, token, stage);
    forall t | t in next.leases ensures LeaseOk(next, t) {
      assert LeaseOk(st, t);
    }
  }

  lemma NewProcessKeepsInv(st: State, procs: map<nat, Process>)
    requires Inv(st)
    requires forall p | p in st.procs :: p in procs && procs[p].host == st.procs[p].host && procs[p].pid == st.procs[p].pid
    requires forall p | p in st.procs && procs[p].alive :: st.procs[p].alive
    ensures Inv(st.(procs := procs))
  {
    var next := st.(procs := procs);
    forall t | t in next.leases ensures LeaseOk(next, t) {
      assert LeaseOk(st, t);
      if st.leases[t].stage.Convinced? {
        assert LeaseOk(st, st.leases[t].stage.token);
      }
    }
  }

  /** The owner of a note of this machine with a process id that nobody has is dead. */
  lemma AbsentIsDead(st: State, token: string)
    requires Inv(st) && HostsIdentifyMachines(st) && token in st.leases && st.leases[token].stage.Suspects?
    requires LeaseOk(st, token)
    requires !SomeLiveProcess(st, st.procs[Owner(st, token)].machine, st.leases[token].stage.note.pid)
    ensures st.leases[token].stage.note.token in st.leases && !Runs(st, st.leases[token].stage.note.token)
  {
    var note := st.leases[token].stage.note;
    assert Genuine(st, note);
    assert LeaseOk(st, note.token);
  }

  lemma TryKeepsInv(st: State, token: string)
    requires Inv(st) && Enabled(st, TryAcquire(token))
    ensures Inv(Next(st, TryAcquire(token)))
  {
    assert LeaseOk(st, token);
    var stage := if Free(st.row, st.now) then Winner else Beaten;
    StageKeepsInv(st, token, stage);
    RowKeepsInv(SetStage(st, token, stage), Acquire(st.row, token, st.now));
  }

  lemma AskKeepsInv(st: State, token: string, found: bool)
    requires Inv(st) && HostsIdentifyMachines(st) && Enabled(st, AskAlive(token, found))
    ensures Inv(Next(st, AskAlive(token, found)))
  {
    assert LeaseOk(st, token);
    if !found {
      AbsentIsDead(st, token);
    }
    StageKeepsInv(st, token, if found then Beaten else Convinced(st.leases[token].stage.note.token));
  }

  lemma BreakKeepsInv(st: State, token: string)
    requires Inv(st) && Enabled(st, BreakLock(token))
    ensures Inv(Next(st, BreakLock(token)))
  {
    assert LeaseOk(st, token);
    var foreign := st.leases[token].stage.token;
    var stage := if Breaks(st.row, foreign, token) then Fresh else Beaten;
    StageKeepsInv(st, token, stage);
    RowKeepsInv(SetStage(st, token, stage), Break(st.row, foreign, token));
  }

  lemma StepKeepsInv(st: State, e: Event)
    requires Inv(st) && HostsIdentifyMachines(st) && Enabled(st, e)
    ensures Inv(Next(st, e))
  {
    match e
    case Tick(to) =>
      assert forall t | t in st.leases :: LeaseOk(st, t) && LeaseOk(Next(st, e), t);
    case Start(p, process) => NewProcessKeepsInv(st, st.procs[p := process]);
    case Crash(p) => NewProcessKeepsInv(st, st.procs[p := st.procs[p].(alive := false)]);
    case Open(token, p) => OpenKeepsInv(st, token, p);
    case TryAcquire(token) => TryKeepsInv(st, token);
    case ReadNote(token) =>
      assert LeaseOk(st, token);
      StageKeepsInv(st, token, AfterNote(st.note, st.procs[Owner(st, token)]));
    case AskAlive(token, found) => AskKeepsInv(st, token, found);
    case BreakLock(token) => BreakKeepsInv(st, token);
    case NoteGone => NoteKeepsInv(st, None);
    case WriteNote(token) =>
      assert LeaseOk(st, token);
      NoteKeepsInv(st, Some(Note(st.procs[Owner(st, token)].host, st.procs[Owner(st, token)].pid, token)));
    case RenewLock(token) => RowKeepsInv(st, Renew(st.row, token, st.now));
    case ReleaseLock(token) => RowKeepsInv(st, Release(st.row, token));
  }

  lemma NoteKeepsInv(st: State, note: Option<Note>)
    requires Inv(st) && (note.Some? ==> Genuine(st, note.value))
    ensures Inv(st.(note := note))
  {
    assert forall t | t in st.leases :: LeaseOk(st, t) && LeaseOk(st.(note := note), t);
  }

  lemma RowKeepsInv(st: State, row: Option<Row>)
    requires Inv(st) && (row.Some? ==> row.value.token in st.leases && row.value.expires <= st.now + TTL)
    ensures Inv(st.(row := row))
  {
    assert forall t | t in st.leases :: LeaseOk(st, t) && LeaseOk(st.(row := row), t);
  }

  lemma OpenKeepsInv(st: State, token: string, p: nat)
    requires Inv(st) && Enabled(st, Open(token, p))
    ensures Inv(Next(st, Open(token, p)))
  {
    var next := Next(st, Open(token, p));
    forall t | t in next.leases ensures LeaseOk(next, t) {
      assert t != token ==> LeaseOk(st, t);
    }
  }

  ghost predicate HostsAreUnique(states: seq<State>) {
    forall i | 0 <= i < |states| :: HostsIdentifyMachines(states[i])
  }

  lemma {:induction false} RunsKeepInv(states: seq<State>, events: seq<Event>, i: nat)
    requires IsRun(states, events) && HostsAreUnique(states) && i <= |events|
    ensures Inv(states[i])
    decreases i
  {
    if i > 0 {
      RunsKeepInv(states, events, i - 1);
      assert Follows(states, events, i - 1);
      StepKeepsInv(states[i - 1], events[i - 1]);
    }
  }

  // ----- Safety -----

  /** A takeover deletes a row only when the process that acquired it is dead. */
  lemma TakeoverBreaksOnlyTheDead(states: seq<State>, events: seq<Event>, i: nat)
    requires IsRun(states, events) && HostsAreUnique(states) && i < |events| && events[i].BreakLock?
    ensures states[i].row.Some? && states[i + 1].row != states[i].row ==> !Runs(states[i], states[i].row.value.token)
  {
    RunsKeepInv(states, events, i);
    assert Follows(states, events, i);
    assert LeaseOk(states[i], events[i].token);
  }

  /** `token` owns the row until at least `end`. */
  ghost predicate OwnsUntil(st: State, token: string, end: int) {
    st.row.Some? && st.row.value.token == token && end <= st.row.value.expires
  }

  lemma StepKeepsOwnership(st: State, e: Event, token: string, end: int)
    requires Inv(st) && HostsIdentifyMachines(st) && Enabled(st, e)
    requires OwnsUntil(st, token, end) && Next(st, e).now < end && Runs(Next(st, e), token) && e != ReleaseLock(token)
    ensures OwnsUntil(Next(st, e), token, end)
  {
    if e.BreakLock? {
      assert LeaseOk(st, e.token);
    }
  }

  lemma {:induction false} ClockOnlyAdvances(states: seq<State>, events: seq<Event>, i: nat, j: nat)
    requires IsRun(states, events) && i <= j <= |events|
    ensures states[i].now <= states[j].now
    decreases j
  {
    if i < j {
      ClockOnlyAdvances(states, events, i, j - 1);
      assert Follows(states, events, j - 1);
    }
  }

  lemma {:induction false} DeadStayDead(states: seq<State>, events: seq<Event>, i: nat, j: nat, token: string)
    requires IsRun(states, events) && i <= j <= |events| && token in states[i].leases && !Runs(states[i], token)
    requires Owner(states[i], token) in states[i].procs
    ensures token in states[j].leases && Owner(states[j], token) == Owner(states[i], token)
    ensures Owner(states[j], token) in states[j].procs && !Runs(states[j], token)
    decreases j
  {
    if i < j {
      DeadStayDead(states, events, i, j - 1, token);
      assert Follows(states, events, j - 1);
    }
  }

  /**
   Exclusive until the deadline: if a check at moment `i` finds the row carrying `token` until
   `end`, then at every later moment before `end` it still does, as long as the process that holds
   it lives and has not released it. Stale notes, takeover attempts of any number of processes,
   crashes of others and clock steps in between change nothing.
   */
  lemma {:induction false} HolderIsExclusive(states: seq<State>, events: seq<Event>, i: nat, j: nat, token: string, end: int)
    requires IsRun(states, events) && HostsAreUnique(states) && i <= j <= |events|
    requires OwnsUntil(states[i], token, end)
    requires states[j].now < end && Runs(states[j], token)
    requires forall k | i <= k < j :: events[k] != ReleaseLock(token)
    ensures OwnsUntil(states[j], token, end)
    decreases j
  {
    if i < j {
      RunsKeepInv(states, events, i);
      RunsKeepInv(states, events, j - 1);
      ClockOnlyAdvances(states, events, j - 1, j);
      OwnedIsOpen(states, events, i, j - 1, token);
      assert LeaseOk(states[j - 1], token);
      if !Runs(states[j - 1], token) {
        DeadStayDead(states, events, j - 1, j, token);
      }
      HolderIsExclusive(states, events, i, j - 1, token, end);
      assert Follows(states, events, j - 1);
      StepKeepsOwnership(states[j - 1], events[j - 1], token, end);
    }
  }

  lemma {:induction false} OwnedIsOpen(states: seq<State>, events: seq<Event>, i: nat, j: nat, token: string)
    requires IsRun(states, events) && i <= j <= |events| && Inv(states[i])
    requires states[i].row.Some? && states[i].row.value.token == token
    ensures token in states[j].leases
    decreases j
  {
    if i < j {
      OwnedIsOpen(states, events, i, j - 1, token);
      assert Follows(states, events, j - 1);
    }
  }

  /** Two checks that both succeed while the first holder's deadline runs belong to one lease. */
  lemma NoTwoWriters(states: seq<State>, events: seq<Event>, i: nat, j: nat, first: string, second: string)
    requires IsRun(states, events) && HostsAreUnique(states) && i <= j <= |events|
    requires Held(states[i].row, first, states[i].now) && Held(states[j].row, second, states[j].now)
    requires states[j].now < states[i].row.value.expires && Runs(states[j], first)
    requires forall k | i <= k < j :: events[k] != ReleaseLock(first)
    ensures first == second
  {
    HolderIsExclusive(states, events, i, j, first, states[i].row.value.expires);
  }

  // ----- What host names must guarantee -----

  function ClashEvent(host: string, pid: int, other: int, k: nat): Event {
    match k
    case 0 => Start(0, Process(0, host, pid, true))
    case 1 => Start(1, Process(1, host, other, true))
    case 2 => Open("a", 0)
    case 3 => TryAcquire("a")
    case 4 => WriteNote("a")
    case 5 => Open("b", 1)
    case 6 => TryAcquire("b")
    case 7 => ReadNote("b")
    case 8 => AskAlive("b", false)
    case _ => BreakLock("b")
  }

  function ClashState(host: string, pid: int, other: int, k: nat): State {
    var holder, thief := Process(0, host, pid, true), Process(1, host, other, true);
    var note := Note(host, pid, "a");
    State(if 4 <= k < 10 then Some(Row("a", TTL)) else None,
          if 5 <= k then Some(note) else None,
          if k == 0 then map[] else if k == 1 then map[0 := holder] else map[0 := holder, 1 := thief],
          if k < 3 then map[]
          else if k == 3 then map["a" := Lease(0, Fresh)]
          else if k < 6 then map["a" := Lease(0, Winner)]
          else map["a" := Lease(0, Winner),
                   "b" := Lease(1, if k == 6 then Fresh else if k == 7 then Beaten else if k == 8 then Suspects(note)
                                   else if k == 9 then Convinced("a") else Fresh)],
          0)
  }

  lemma ClashFollows(host: string, pid: int, other: int, k: nat)
    requires 0 < pid && 0 < other && pid != other && k < 10
    ensures var st, e := ClashState(host, pid, other, k), ClashEvent(host, pid, other, k);
            Enabled(st, e) && Next(st, e) == ClashState(host, pid, other, k + 1)
  {
    var st, e := ClashState(host, pid, other, k), ClashEvent(host, pid, other, k);
    if k < 5 {
      assert Enabled(st, e);
    } else {
      assert st.procs[0] == Process(0, host, pid, true) && st.procs[1] == Process(1, host, other, true);
      assert Enabled(st, e);
    }
    assert Next(st, e) == ClashState(host, pid, other, k + 1);
  }

  /**
   Two machines that share a host name and a store: the second finds no process with the holder's
   id on its own machine and deletes the row of a holder that is alive.
   */
  lemma SharedHostNameBreaksTheLiving(host: string, pid: int, other: int) returns (states: seq<State>, events: seq<Event>)
    requires 0 < pid && 0 < other && pid != other
    ensures IsRun(states, events) && |events| == 10 && events[9].BreakLock?
    ensures Held(states[9].row, "a", states[9].now) && Runs(states[9], "a") && states[10].row.None?
    ensures states[9].procs.Keys == {0, 1}
    ensures states[9].procs[0].host == states[9].procs[1].host && states[9].procs[0].machine != states[9].procs[1].machine
  {
    states := seq(11, k requires k >= 0 => ClashState(host, pid, other, k));
    events := seq(10, k requires k >= 0 => ClashEvent(host, pid, other, k));
    forall k | 0 <= k < 10 ensures Follows(states, events, k) {
      ClashFollows(host, pid, other, k);
    }
  }
}
