/**
 The lease objects and the registry of one engine process (core/lease.py): acquiring with takeover
 from a dead holder, renewing, and the check before every order.
 */
module LeaseClient {
  import opened Options
  import opened LeaseStore
  import L = LeaseProtocol

  /** The account name: user and trading mode. */
  function AccountKey(user: string, paper: bool): string {
    (if user == "" then "global" else user) + ":" + (if paper then "paper" else "live")
  }

  /** Two engines contend exactly when they trade the same user in the same mode. */
  lemma AccountsCoincideExactly(user1: string, paper1: bool, user2: string, paper2: bool)
    ensures AccountKey(user1, paper1) == AccountKey(user2, paper2) <==>
              && paper1 == paper2
              && (user1 == user2 || {user1, user2} == {"", "global"})
  {
    var key1, key2 := AccountKey(user1, paper1), AccountKey(user2, paper2);
    var name1, name2 := if user1 == "" then "global" else user1, if user2 == "" then "global" else user2;
    assert key1[|key1| - 1] == (if paper1 then 'r' else 'e') && key2[|key2| - 1] == (if paper2 then 'r' else 'e');
    if key1 == key2 {
      assert |name1| == |name2|;
      assert name1 == key1[..|name1|] && name2 == key2[..|name2|];
    }
  }

  datatype NoteRow = NoteRow(note: Note, expires: int)

  datatype Self = Self(host: string, pid: int)

  function LiveNote(note: Option<NoteRow>, now: int): Option<Note> {
    if note.Some? && now < note.value.expires then Some(note.value.note) else None
  }

  /** The note proves that the holder's process is gone and the row is still that holder's. */
  predicate ProvablyDead(row: Option<Row>, note: Option<NoteRow>, token: string, self: Self, alive: int -> bool, now: int) {
    var n := LiveNote(note, now);
    && n.Some? && n.value.host == self.host
    && n.value.pid > 0 && n.value.pid != self.pid && !alive(n.value.pid)
    && Breaks(row, n.value.token, token)
  }

  predicate Wins(row: Option<Row>, note: Option<NoteRow>, token: string, self: Self, alive: int -> bool, now: int) {
    Free(row, now) || ProvablyDead(row, note, token, self, alive, now)
  }

  // ----- An undisturbed attempt is a path of the protocol -----

  /** The steps of `erwerben` taken one after the other; `alive` answers the liveness question. */
  ghost function Attempt(st: L.State, token: string, alive: int -> bool): L.State
    requires L.Enabled(st, L.TryAcquire(token))
    requires forall pid | L.SomeLiveProcess(st, st.procs[L.Owner(st, token)].machine, pid) :: alive(pid)
  {
    var tried := L.Next(st, L.TryAcquire(token));
    if Free(st.row, st.now) then tried
    else
      var read := L.Next(tried, L.ReadNote(token));
      if !read.leases[token].stage.Suspects? then read
      else
        var found := alive(read.leases[token].stage.note.pid);
        assert forall pid | L.SomeLiveProcess(read, read.procs[L.Owner(read, token)].machine, pid) ::
            L.SomeLiveProcess(st, st.procs[L.Owner(st, token)].machine, pid);
        var asked := L.Next(read, L.AskAlive(token, found));
        if found then asked
        else
          var broken := L.Next(asked, L.BreakLock(token));
          if broken.leases[token].stage.Fresh? then L.Next(broken, L.TryAcquire(token)) else broken
  }

  /** It ends with the row exactly when `Acquire` below succeeds, and otherwise leaves it alone. */
  lemma AttemptWinsExactly(st: L.State, note: Option<NoteRow>, token: string, alive: int -> bool)
    requires L.Enabled(st, L.TryAcquire(token)) && LiveNote(note, st.now) == st.note
    requires forall pid | L.SomeLiveProcess(st, st.procs[L.Owner(st, token)].machine, pid) :: alive(pid)
    requires st.row.Some? ==> st.row.value.token != token
    ensures var self := Self(st.procs[L.Owner(st, token)].host, st.procs[L.Owner(st, token)].pid);
            var end := Attempt(st, token, alive);
            if Wins(st.row, note, token, self, alive, st.now)
            then end.row == Some(Row(token, st.now + TTL)) && Held(end.row, token, end.now)
            else end.row == st.row && !Held(end.row, token, end.now)
  {
    var tried := L.Next(st, L.TryAcquire(token));
    if !Free(st.row, st.now) {
      var read := L.Next(tried, L.ReadNote(token));
      if read.leases[token].stage.Suspects? {
        assert read.leases[token].stage.note == st.note.value;
      }
    }
  }

  class SharedStore {
    var rows: map<string, Row>
    var notes: map<string, NoteRow>

    constructor ()
      ensures rows == map[] && notes == map[]
    {
      rows, notes := map[], map[];
    }

    function RowOf(account: string): Option<Row>
      reads this
    {
      if account in rows then Some(rows[account]) else None
    }

    function NoteOf(account: string): Option<NoteRow>
      reads this
    {
      if account in notes then Some(notes[account]) else None
    }

    /** One statement: insert, or overwrite an expired row. */
    method Insert(account: string, token: string, now: int) returns (ok: bool)
      modifies `rows
      ensures ok == Free(old(RowOf(account)), now)
      ensures ok <==> account !in old(rows) || old(rows)[account].expires <= now
      ensures rows == if ok then old(rows)[account := Row(token, now + TTL)] else old(rows)
    {
      ok := account !in rows || rows[account].expires <= now;
      if ok {
        rows := rows[account := Row(token, now + TTL)];
      }
    }

    method DeleteIf(account: string, token: string) returns (ok: bool)
      modifies `rows
      ensures ok == (account in old(rows) && old(rows)[account].token == token)
      ensures rows == if ok then old(rows) - {account} else old(rows)
    {
      ok := account in rows && rows[account].token == token;
      if ok {
        rows := rows - {account};
      }
    }
  }

  class EngineLease {
    const store: SharedStore
    const account: string
    const token: string
    const self: Self
    const ring: int          // the event loop it was acquired on

    constructor (store: SharedStore, account: string, token: string, self: Self, ring: int)
      ensures this.store == store && this.account == account && this.token == token && this.self == self && this.ring == ring
    {
      this.store, this.account, this.token, this.self, this.ring := store, account, token, self, ring;
    }

    method WriteNote(now: int, fails: bool)
      modifies store`notes
      ensures store.notes == if fails then old(store.notes)
                             else old(store.notes)[account := NoteRow(Note(self.host, self.pid, token), now + TTL)]
    {
      if !fails {
        store.notes := store.notes[account := NoteRow(Note(self.host, self.pid, token), now + TTL)];
      }
    }

    /** A live note of this host names the row's holder and another process id that does not exist. */
    ghost predicate DiedHere(alive: int -> bool, now: int)
      reads store
    {
      && account in store.rows && account in store.notes && now < store.notes[account].expires
      && store.rows[account].token == store.notes[account].note.token != "" && store.rows[account].token != token
      && store.notes[account].note.host == self.host
      && 0 < store.notes[account].note.pid != self.pid && !alive(store.notes[account].note.pid)
    }

    method TakeOverIfDead(alive: int -> bool, now: int) returns (broken: bool)
      modifies store`rows
      ensures broken == ProvablyDead(old(store.RowOf(account)), old(store.NoteOf(account)), token, self, alive, now)
      ensures broken <==> old(DiedHere(alive, now))
      ensures store.rows == if broken then old(store.rows) - {account} else old(store.rows)
    {
      var note := LiveNote(store.NoteOf(account), now);
      if note.None? {
        return false;
      }
      if note.value.host != self.host {
        return false;
      }
      var pid := note.value.pid;
      if pid <= 0 || pid == self.pid || alive(pid) {
        return false;
      }
      if note.value.token == "" || note.value.token == token {
        return false;
      }
      broken := store.DeleteIf(account, note.value.token);
    }

    /**
     The caller becomes the writer exactly when the row is free, or its holder is provably dead on
     this host; no other account is touched, and without success nothing changes.
     */
    method Acquire(alive: int -> bool, now: int, noteFails: bool) returns (ok: bool)
      modifies store
      ensures ok == Wins(old(store.RowOf(account)), old(store.NoteOf(account)), token, self, alive, now)
      ensures ok <==> account !in old(store.rows) || old(store.rows)[account].expires <= now || old(DiedHere(alive, now))
      ensures store.rows == if ok then old(store.rows)[account := Row(token, now + TTL)] else old(store.rows)
      ensures store.notes == if ok && !noteFails
                             then old(store.notes)[account := NoteRow(Note(self.host, self.pid, token), now + TTL)]
                             else old(store.notes)
    {
      ok := store.Insert(account, token, now);
      if !ok {
        var broken := TakeOverIfDead(alive, now);
        if broken {
          ok := store.Insert(account, token, now);
        }
      }
      if ok {
        WriteNote(now, noteFails);
      }
    }

    /** Only with reported progress, and only while the row is still ours and unexpired. */
    method Renew(progress: bool, now: int, noteFails: bool) returns (ok: bool)
      modifies store
      ensures ok == (progress && Held(old(store.RowOf(account)), token, now))
      ensures ok <==> progress && account in old(store.rows) && old(store.rows)[account].token == token &&
                      now < old(store.rows)[account].expires
      ensures store.rows == if ok then old(store.rows)[account := Row(token, now + TTL)] else old(store.rows)
      ensures store.notes == if ok && !noteFails
                             then old(store.notes)[account := NoteRow(Note(self.host, self.pid, token), now + TTL)]
                             else old(store.notes)
    {
      if !progress {
        return false;
      }
      ok := account in store.rows && store.rows[account].token == token && now < store.rows[account].expires;
      if ok {
        store.rows := store.rows[account := Row(token, now + TTL)];
        WriteNote(now, noteFails);
      }
    }

    method ReleaseLease() returns (ok: bool)
      modifies store
      ensures ok == (old(store.RowOf(account)) != None && old(store.RowOf(account)).value.token == token)
      ensures store.RowOf(account) == Release(old(store.RowOf(account)), token)
      ensures forall a | a != account :: store.RowOf(a) == old(store.RowOf(a))
    {
      ok := store.DeleteIf(account, token);
    }
  }

  /** How asking the registered lease goes: it answers, its ring is gone, or the store raises. */
  datatype Asking = Answers | RingGone | Raises

  class Registry {
    const store: SharedStore
    const self: Self
    var entries: map<string, EngineLease>

    constructor (store: SharedStore, self: Self)
      ensures this.store == store && this.self == self && entries == map[]
    {
      this.store, this.self, this.entries := store, self, map[];
    }

    ghost predicate Valid()
      reads this
    {
      forall a | a in entries :: entries[a].store == store && entries[a].account == a && entries[a].self == self
    }

    ghost predicate Writes(account: string, now: int)
      reads this, store
    {
      account in entries && Held(store.RowOf(account), entries[account].token, now)
    }

    /** Nothing is registered for the account, or what is registered does not hold it. */
    ghost predicate MustAcquire(account: string, asking: Asking, now: int)
      reads this, store
    {
      account in entries ==> asking.RingGone? || (asking.Answers? && !Writes(account, now))
    }

    /** What one attempt leaves of the registry and the rows as they were. */
    ghost predicate Attempted(account: string, token: string, ok: bool, now: int,
                              entriesWere: map<string, EngineLease>, rowsWere: map<string, Row>)
      reads this, store, set a | a in entries :: entries[a]
    {
      && entries - {account} == entriesWere - {account}
      && (account in entries <==> ok)
      && (ok ==> entries[account].token == token)
      && store.rows == if ok then rowsWere[account := Row(token, now + TTL)] else rowsWere
    }

    /**
     True, false, or None where the source raises. Asking first, then at most one attempt with a
     new lease object; a lost lease never stays registered.
     */
    method SecurePermission(account: string, token: string, ring: int, alive: int -> bool, now: int,
                            asking: Asking, acquireRaises: bool, noteFails: bool)
      returns (granted: Option<bool>)
      requires Valid()
      modifies this, store
      ensures Valid()
      ensures granted == Some(true) ==> Writes(account, now)
      ensures account in old(entries) && asking.Raises? ==>
                granted == None && entries == old(entries) && store.rows == old(store.rows)
      ensures old(Writes(account, now)) && asking.Answers? ==>
                granted == Some(true) && entries == old(entries) && store.rows == old(store.rows)
      ensures old(MustAcquire(account, asking, now)) ==>
                if acquireRaises then granted == None && entries == old(entries) - {account} && store.rows == old(store.rows)
                else
                  && granted == Some(Wins(old(store.RowOf(account)), old(store.NoteOf(account)), token, self, alive, now))
                  && Attempted(account, token, granted.value, now, old(entries), old(store.rows))
    {
      if account in entries {
        if asking.Raises? {
          return None;
        }
        if asking.Answers? {
          var known := entries[account];
          if Held(store.RowOf(account), known.token, now) {
            return Some(true);
          }
        }
        entries := entries - {account};
      }
      if acquireRaises {
        return None;
      }
      var lease := new EngineLease(store, account, token, self, ring);
      var ok := lease.Acquire(alive, now, noteFails);
      if ok {
        entries := entries[account := lease];
      }
      granted := Some(ok);
    }

    /**
     The check before every order. With the lease active a positive answer means the row carries
     this process's registered token at that moment; anything unreadable is a no.
     */
    method MayWrite(active: bool, account: string, token: string, ring: int, alive: int -> bool, now: int,
                    asking: Asking, acquireRaises: bool, noteFails: bool)
      returns (ok: bool)
      requires Valid()
      modifies this, store
      ensures Valid()
      ensures ok && active ==> Writes(account, now)
      ensures ok && active ==> account in store.rows && now < store.rows[account].expires && account in entries &&
                               entries[account].token == store.rows[account].token
      ensures active && old(account !in store.rows || store.rows[account].expires <= now) && !acquireRaises ==>
                (account !in old(entries) || !asking.Raises? ==> ok)
      ensures !active ==> ok && entries == old(entries) && store.rows == old(store.rows) && store.notes == old(store.notes)
      ensures active && old(Writes(account, now)) && asking.Answers? ==> ok && entries == old(entries) && store.rows == old(store.rows)
      ensures active && account in old(entries) && asking.Raises? ==> !ok
      ensures active && old(MustAcquire(account, asking, now)) ==>
                ok == (!acquireRaises && Wins(old(store.RowOf(account)), old(store.NoteOf(account)), token, self, alive, now))
    {
      if !active {
        return true;
      }
      var granted := SecurePermission(account, token, ring, alive, now, asking, acquireRaises, noteFails);
      ok := granted == Some(true);
    }

    /** A lease that cannot be renewed is dropped. */
    method RenewEntry(account: string, now: int, noteFails: bool) returns (ok: bool)
      requires Valid() && account in entries
      modifies this, store
      ensures Valid()
      ensures ok == old(Writes(account, now))
      ensures entries == if ok then old(entries) else old(entries) - {account}
      ensures store.rows == if ok then old(store.rows)[account := Row(old(entries)[account].token, now + TTL)] else old(store.rows)
    {
      ok := entries[account].Renew(true, now, noteFails);
      if !ok {
        entries := entries - {account};
      }
    }

    ghost function Tokens(): map<string, string>
      reads this, set a | a in entries :: entries[a]
    {
      map a | a in entries :: entries[a].token
    }

    /** The accounts whose lease was acquired on this ring. */
    ghost predicate ListsRing(ring: int, own: seq<string>)
      reads this, set a | a in entries :: entries[a]
    {
      && (forall i, j | 0 <= i < j < |own| :: own[i] != own[j])
      && (forall a :: a in own <==> a in entries && entries[a].ring == ring)
    }

    method ListRing(ring: int) returns (own: seq<string>)
      ensures ListsRing(ring, own)
    {
      own := [];
      var left := set a | a in entries && entries[a].ring == ring;
      while left != {}
        invariant forall i, j | 0 <= i < j < |own| :: own[i] != own[j]
        invariant forall a :: a in left ==> a !in own
        invariant forall a :: a in own || a in left <==> a in entries && entries[a].ring == ring
        decreases |left|
      {
        var a :| a in left;
        left := left - {a};
        own := own + [a];
      }
    }

    /** Without progress nothing is renewed; otherwise the ring's leases are renewed one by one. */
    method RenewOnRing(ring: int, progress: bool, raises: set<string>, now: int, noteFails: bool)
      returns (renewed: nat, ghost own: seq<string>)
      requires Valid()
      modifies this, store
      ensures Valid() && old(ListsRing(ring, own))
      ensures !progress ==> renewed == 0 && entries == old(entries) && store.rows == old(store.rows)
      ensures progress ==>
                var r := Renewals(old(store.rows), old(Tokens()), raises, own, now);
                renewed == r.count && entries == old(entries) - r.dropped && store.rows == r.rows
    {
      renewed := 0;
      var listed := ListRing(ring);
      own := listed;
      if !progress {
        return;
      }
      ghost var was, rows, tokens := entries, store.rows, Tokens();
      ghost var r := Renewals(rows, tokens, raises, listed[..0], now);
      assert entries == was - r.dropped;
      for i := 0 to |listed|
        invariant Valid() && r == Renewals(rows, tokens, raises, listed[..i], now)
        invariant renewed == r.count && entries == was - r.dropped && store.rows == r.rows
      {
        var a := listed[i];
        RenewalsNext(rows, tokens, raises, listed, i, now);
        if a !in raises {
          assert a in entries && entries[a] == was[a] && tokens[a] == was[a].token;
          var ok := RenewEntry(a, now, noteFails);
          if ok {
            renewed := renewed + 1;
          }
        }
        r := Renewals(rows, tokens, raises, listed[..i + 1], now);
      }
      assert listed[..|listed|] == listed;
    }
  }

  // ----- Renewing a list of accounts -----

  datatype Renewed = Renewed(rows: map<string, Row>, dropped: set<string>, count: nat)

  predicate HoldsRow(rows: map<string, Row>, tokens: map<string, string>, a: string, now: int) {
    a in tokens && a in rows && rows[a].token == tokens[a] && now < rows[a].expires
  }

  function Renewals(rows: map<string, Row>, tokens: map<string, string>, raises: set<string>, own: seq<string>, now: int): Renewed {
    var n := |own|;
    if n == 0 then Renewed(rows, {}, 0)
    else
      var r, a := Renewals(rows, tokens, raises, own[..n - 1], now), own[n - 1];
      if a in raises then r
      else if HoldsRow(r.rows, tokens, a, now) then Renewed(r.rows[a := Row(tokens[a], now + TTL)], r.dropped, r.count + 1)
      else r.(dropped := r.dropped + {a})
  }

  lemma RenewalsNext(rows: map<string, Row>, tokens: map<string, string>, raises: set<string>, own: seq<string>, i: nat, now: int)
    requires i < |own| && forall i, j | 0 <= i < j < |own| :: own[i] != own[j]
    ensures var r, next, a := Renewals(rows, tokens, raises, own[..i], now), Renewals(rows, tokens, raises, own[..i + 1], now), own[i];
            && a !in r.dropped
            && next == if a in raises then r
                       else if HoldsRow(r.rows, tokens, a, now) then Renewed(r.rows[a := Row(tokens[a], now + TTL)], r.dropped, r.count + 1)
                       else r.(dropped := r.dropped + {a})
  {
    assert own[..i + 1][..i] == own[..i];
    OnlyListedAreDropped(rows, tokens, raises, own[..i], now);
  }

  lemma {:induction false} OnlyListedAreDropped(rows: map<string, Row>, tokens: map<string, string>, raises: set<string>,
                                                own: seq<string>, now: int)
    ensures forall a | a in Renewals(rows, tokens, raises, own, now).dropped :: a in own
    decreases |own|
  {
    if |own| > 0 {
      OnlyListedAreDropped(rows, tokens, raises, own[..|own| - 1], now);
    }
  }

  /**
   Every listed lease that holds its row gets a full term, every other one that does not raise is
   dropped, and no other row moves, whatever the order of the list.
   */
  lemma {:induction false} RenewalsExactly(rows: map<string, Row>, tokens: map<string, string>, raises: set<string>,
                                           own: seq<string>, now: int, a: string)
    requires forall i, j | 0 <= i < j < |own| :: own[i] != own[j]
    ensures var r := Renewals(rows, tokens, raises, own, now);
            var tried, held := a in own && a !in raises,
                               a in tokens && a in rows && rows[a].token == tokens[a] && now < rows[a].expires;
            && (a in r.dropped <==> tried && !held)
            && (a in r.rows <==> a in rows)
            && (a in rows ==> r.rows[a] == if tried && held then Row(tokens[a], now + 60_000) else rows[a])
    decreases |own|
  {
    var n := |own|;
    if n > 0 {
      RenewalsExactly(rows, tokens, raises, own[..n - 1], now, a);
      if own[n - 1] == a {
        assert a !in own[..n - 1];
      } else {
        assert own == own[..n - 1] + [own[n - 1]];
      }
    }
  }

  /** The listed leases that can be asked and hold their row. */
  ghost function Renewable(rows: map<string, Row>, tokens: map<string, string>, raises: set<string>, own: seq<string>, now: int): set<string> {
    set a | a in own && a !in raises && a in tokens && a in rows && rows[a].token == tokens[a] && now < rows[a].expires
  }

  /** The answer is how many of them there are. */
  lemma {:induction false} RenewalsAreCounted(rows: map<string, Row>, tokens: map<string, string>, raises: set<string>,
                                              own: seq<string>, now: int)
    requires forall i, j | 0 <= i < j < |own| :: own[i] != own[j]
    ensures Renewals(rows, tokens, raises, own, now).count == |Renewable(rows, tokens, raises, own, now)|
    decreases |own|
  {
    if own != [] {
      RenewalsAreCounted(rows, tokens, raises, own[..|own| - 1], now);
      RenewalsExactly(rows, tokens, raises, own[..|own| - 1], now, own[|own| - 1]);
      RenewableStep(rows, tokens, raises, own, now);
    }
  }

  lemma RenewableStep(rows: map<string, Row>, tokens: map<string, string>, raises: set<string>, own: seq<string>, now: int)
    requires own != [] && forall i, j | 0 <= i < j < |own| :: own[i] != own[j]
    ensures var a := own[|own| - 1];
            |Renewable(rows, tokens, raises, own, now)|
            == |Renewable(rows, tokens, raises, own[..|own| - 1], now)| + (if a !in raises && HoldsRow(rows, tokens, a, now) then 1 else 0)
  {
    var a, before := own[|own| - 1], Renewable(rows, tokens, raises, own[..|own| - 1], now);
    assert own == own[..|own| - 1] + [a] && a !in own[..|own| - 1];
    assert a !in before;
    assert Renewable(rows, tokens, raises, own, now) == if a !in raises && HoldsRow(rows, tokens, a, now) then before + {a} else before;
  }
}
