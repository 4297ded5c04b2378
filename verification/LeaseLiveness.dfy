/**
 Who gets the engine lease, and when (core/lease.py, core/state/sqlite_adapter.py): an expired row
 is there for the first that asks, a punctual holder keeps its row, and a dead one is replaced at
 once. Stated on the fields of the row and the note alone; a term is 60 seconds.
 */
module LeaseLiveness {
  import opened Options
  import opened LeaseStore
  import opened LeaseProtocol
  import C = LeaseClient

  // ----- One attempt -----

  /** An attempt takes a missing or expired row for a full term and leaves any other row as it is. */
  lemma AttemptTakesExactlyFreeOrExpired(states: seq<State>, events: seq<Event>, i: nat, token: string)
    requires IsRun(states, events) && i < |events| && events[i] == TryAcquire(token)
    ensures var row, now := states[i].row, states[i].now;
            && states[i + 1].row == (if row == None || row.value.expires <= now then Some(Row(token, now + 60_000)) else row)
            && token in states[i + 1].leases
            && (states[i + 1].leases[token].stage.Winner? <==> row == None || row.value.expires <= now)
  {
    assert Follows(states, events, i);
  }

  /** Before the deadline the row's token is the one writer; from the deadline on there is none. */
  lemma OneWriterUntilTheDeadline(states: seq<State>, events: seq<Event>, i: nat, token: string)
    requires IsRun(states, events) && i < |states|
    ensures Held(states[i].row, token, states[i].now) <==>
            exists end :: states[i].row == Some(Row(token, end)) && states[i].now < end
  {
    var row := states[i].row;
    if Held(row, token, states[i].now) {
      assert row == Some(Row(token, row.value.expires));
    }
  }

  // ----- A row that is not renewed -----

  /** The event neither renews `r` nor is an attempt that finds the row missing or `r` expired. */
  predicate Passes(st: State, e: Event, r: Row) {
    && e != RenewLock(r.token)
    && (e.TryAcquire? ==> st.row != None && st.now < r.expires)
  }

  lemma {:induction false} UnrenewedRowStaysOrGoes(states: seq<State>, events: seq<Event>, i: nat, j: nat, r: Row)
    requires IsRun(states, events) && i <= j <= |events| && states[i].row == Some(r)
    requires forall k | i <= k < j :: Passes(states[k], events[k], r)
    ensures states[j].row == None || states[j].row == Some(r)
    decreases j
  {
    if i < j {
      UnrenewedRowStaysOrGoes(states, events, i, j - 1, r);
      assert Follows(states, events, j - 1) && Passes(states[j - 1], events[j - 1], r);
    }
  }

  /**
   A row that is not renewed is won by the first attempt at or after its deadline, whoever makes it
   and whatever notes, crashes, takeovers and earlier attempts there were: a wedged or dead engine on
   any machine blocks the account for its term and no longer.
   */
  lemma UnrenewedRowIsWon(states: seq<State>, events: seq<Event>, i: nat, j: nat, r: Row, token: string)
    requires IsRun(states, events) && i <= j < |events| && states[i].row == Some(r)
    requires forall k | i <= k < j :: Passes(states[k], events[k], r)
    requires events[j] == TryAcquire(token) && r.expires <= states[j].now
    ensures states[j + 1].row == Some(Row(token, states[j].now + 60_000))
    ensures Held(states[j + 1].row, token, states[j + 1].now)
  {
    UnrenewedRowStaysOrGoes(states, events, i, j, r);
    AttemptTakesExactlyFreeOrExpired(states, events, j, token);
    assert Follows(states, events, j);
  }

  // ----- A row that is renewed -----

  /** The deadline that the renewals from event `i` on have given the row by event `k`. */
  function Deadline(states: seq<State>, events: seq<Event>, i: nat, k: nat, token: string, end: int): int
    requires i <= k <= |events| <= |states|
  {
    if i == k then end
    else if events[k - 1] == RenewLock(token) then states[k - 1].now + 60_000
    else Deadline(states, events, i, k - 1, token, end)
  }

  lemma StepMovesTheDeadline(st: State, e: Event, token: string, end: int)
    requires Inv(st) && HostsIdentifyMachines(st) && Enabled(st, e)
    requires st.row == Some(Row(token, end)) && st.now < end && Runs(Next(st, e), token) && e != ReleaseLock(token)
    ensures Next(st, e).row == Some(Row(token, if e == RenewLock(token) then st.now + 60_000 else end))
  {
    if e.BreakLock? {
      assert LeaseOk(st, e.token);
    }
  }

  /**
   A holder that lives, renews before each deadline and does not release keeps its row for good, with
   the deadline its last renewal gave it, against any number of other attempts and takeovers.
   */
  lemma {:induction false} PunctualHolderKeepsItsRow(states: seq<State>, events: seq<Event>, i: nat, j: nat, token: string, end: int)
    requires IsRun(states, events) && HostsAreUnique(states) && i <= j <= |events|
    requires states[i].row == Some(Row(token, end)) && Runs(states[j], token)
    requires forall k | i <= k < j :: events[k] != ReleaseLock(token)
    requires forall k | i <= k < j :: states[k].now < Deadline(states, events, i, k, token, end)
    ensures states[j].row == Some(Row(token, Deadline(states, events, i, j, token, end)))
    decreases j
  {
    if i < j {
      RunsKeepInv(states, events, i);
      RunsKeepInv(states, events, j - 1);
      OwnedIsOpen(states, events, i, j - 1, token);
      assert LeaseOk(states[j - 1], token);
      if !Runs(states[j - 1], token) {
        DeadStayDead(states, events, j - 1, j, token);
      }
      PunctualHolderKeepsItsRow(states, events, i, j - 1, token, end);
      assert Follows(states, events, j - 1);
      StepMovesTheDeadline(states[j - 1], events[j - 1], token, Deadline(states, events, i, j - 1, token, end));
    }
  }

  /** A renewal that comes at or after the deadline, or for a row of another, changes nothing. */
  lemma LateRenewalRevivesNothing(states: seq<State>, events: seq<Event>, i: nat, token: string)
    requires IsRun(states, events) && i < |events| && events[i] == RenewLock(token)
    requires states[i].row != None ==> states[i].row.value.token != token || states[i].row.value.expires <= states[i].now
    ensures states[i + 1].row == states[i].row
  {
    assert Follows(states, events, i);
  }

  // ----- A dead holder -----

  /** What the note says about a row that has not expired: its holder was here and is gone. */
  ghost predicate DiedHere(st: State, r: Row, token: string, alive: int -> bool)
    requires Runs(st, token)
  {
    var self := st.procs[Owner(st, token)];
    && st.note != None && st.note.value.token == r.token && r.token != "" && r.token != token
    && st.note.value.host == self.host && 0 < st.note.value.pid != self.pid && !alive(st.note.value.pid)
  }

  /**
   Against a row that has not expired, an undisturbed attempt gets a full term at once exactly when the
   note names the row's token, this host and another process id that does not exist here; otherwise
   the row stays.
   */
  lemma TakenEarlyExactlyFromTheDead(st: State, token: string, alive: int -> bool, r: Row)
    requires Enabled(st, TryAcquire(token)) && st.row == Some(r) && st.now < r.expires
    requires forall pid | SomeLiveProcess(st, st.procs[Owner(st, token)].machine, pid) :: alive(pid)
    ensures C.Attempt(st, token, alive).row ==
            if DiedHere(st, r, token, alive) then Some(Row(token, st.now + 60_000)) else Some(r)
  {
    var read := Next(Next(st, TryAcquire(token)), ReadNote(token));
    if read.leases[token].stage.Suspects? {
      assert read.leases[token].stage.note == st.note.value;
    }
  }
}
