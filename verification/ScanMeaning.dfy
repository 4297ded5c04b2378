/**
 What the nonce scan reads and returns (core/hitl_gate.py:483-557), line by line: the lines are the bytes
 of the files, the result is every nonce on them, and a seal that was written spares the next scan the
 lines before its anchor.
 */
module ScanMeaning {
  import opened Options
  import opened AuditChain
  import opened NonceScan

  // ----- The lines are the files -----

  function Joined(items: seq<Item>): seq<Byte> {
    if items == [] then [] else items[0].bytes + Joined(items[1..])
  }

  /** One line: not empty, and a line break only at its end. */
  predicate IsLine(bytes: seq<Byte>) {
    bytes != [] && forall i | 0 <= i < |bytes| - 1 :: bytes[i] != NEWLINE
  }

  lemma {:induction false} LinesAreTheText(name: nat, text: seq<Byte>, off: nat, number: nat)
    requires off <= |text|
    ensures var items := ItemsFrom(name, text, off, number);
            && Joined(items) == text[off..]
            && (forall k | 0 <= k < |items| :: items[k].file == name && items[k].number == number + k + 1 && IsLine(items[k].bytes))
            && (forall k | 0 <= k < |items| - 1 :: Terminated(items[k].bytes))
    decreases |text| - off
  {
    if off < |text| {
      var e := LineEnd(text, off);
      LinesAreTheText(name, text, e, number + 1);
      var rest := ItemsFrom(name, text, e, number + 1);
      var items := ItemsFrom(name, text, off, number);
      assert items == [Item(name, off, number + 1, text[off..e])] + rest;
      assert text[off..e] + text[e..] == text[off..];
      if e == |text| {
        assert rest == [];
      }
    }
  }

  /** The lines of a chain are those of its files: whole, in order, numbered from one, all but the last terminated. */
  lemma ChainLinesAreItsFiles(chain: seq<File>, i: nat)
    requires i < |chain|
    ensures var lines := ItemsFrom(chain[i].name, chain[i].text, 0, 0);
            && Joined(lines) == chain[i].text
            && (forall k | 0 <= k < |lines| :: lines[k].number == k + 1 && IsLine(lines[k].bytes))
            && (forall k | 0 <= k < |lines| - 1 :: Terminated(lines[k].bytes))
            && (forall line | line in lines :: line in Items(chain))
  {
    LinesAreTheText(chain[i].name, chain[i].text, 0, 0);
    assert chain[i].text[0..] == chain[i].text;
    LinesAreOnTheChain(chain, i);
  }

  lemma {:induction false} LinesAreOnTheChain(chain: seq<File>, i: nat)
    requires i < |chain|
    ensures forall line | line in ItemsFrom(chain[i].name, chain[i].text, 0, 0) :: line in Items(chain)
    decreases chain
  {
    if i > 0 {
      LinesAreOnTheChain(chain[1..], i - 1);
    }
  }

  // ----- The scan returns what is on the lines -----

  ghost predicate OnSomeLine(r: Reader, items: seq<Item>, nonce: string) {
    exists k :: 0 <= k < |items| && r.parse(items[k].bytes).Record? && r.parse(items[k].bytes).nonce == Some(nonce)
  }

  lemma {:induction false} NoncesExactly(r: Reader, items: seq<Item>, nonce: string)
    ensures nonce in Nonces(r, items) <==> OnSomeLine(r, items, nonce)
  {
    if items != [] {
      NoncesExactly(r, items[1..], nonce);
      if OnSomeLine(r, items[1..], nonce) {
        var k :| 0 <= k < |items[1..]| && r.parse(items[1..][k].bytes).Record? && r.parse(items[1..][k].bytes).nonce == Some(nonce);
        assert items[k + 1] == items[1..][k];
      }
      if OnSomeLine(r, items, nonce) && nonce !in NoncesOfFirst(r, items[0]) {
        var k :| 0 <= k < |items| && r.parse(items[k].bytes).Record? && r.parse(items[k].bytes).nonce == Some(nonce);
        assert items[k] == items[1..][k - 1];
      }
    }
  }

  function NoncesOfFirst(r: Reader, item: Item): set<string> {
    if r.parse(item.bytes).Record? then NonceSet(r.parse(item.bytes).nonce) else {}
  }

  ghost predicate SomeForeign(r: Reader, items: seq<Item>) {
    exists k :: 0 <= k < |items| && r.parse(items[k].bytes).Foreign?
  }

  lemma ForeignHereOrLater(r: Reader, items: seq<Item>)
    requires items != []
    ensures SomeForeign(r, items) <==> r.parse(items[0].bytes).Foreign? || SomeForeign(r, items[1..])
  {
    if SomeForeign(r, items[1..]) {
      var k :| 0 <= k < |items[1..]| && r.parse(items[1..][k].bytes).Foreign?;
      assert items[k + 1] == items[1..][k];
    }
    if SomeForeign(r, items) {
      var k :| 0 <= k < |items| && r.parse(items[k].bytes).Foreign?;
      if k > 0 {
        assert items[1..][k - 1] == items[k];
      }
    }
  }

  lemma {:induction false} RaisesExactly(r: Reader, p: Progress, items: seq<Item>)
    ensures Fold(r, Done(p), items).Raised? <==> SomeForeign(r, items)
    decreases |items|
  {
    if items != [] {
      var next := Step(r, Done(p), items[0]);
      if next.Raised? {
        FoldOfRaised(r, items[1..]);
      } else {
        RaisesExactly(r, next.progress, items[1..]);
      }
      ForeignHereOrLater(r, items);
    }
  }

  /**
   In every run a scan raises exactly when some line of the chain is valid JSON but no object, and
   otherwise returns a nonce exactly when some record on the chain carries it.
   */
  lemma ScanReturnsExactlyTheNonces(r: Reader, states: seq<State>, events: seq<Event>, i: nat, nonce: string)
    requires Lawful(r) && IsRun(r, states, events) && i < |events| && events[i].Scanned?
    ensures var items, outcome := Items(states[i].chain), SealedScan(r, states[i].chain, states[i].seal);
            && (outcome.Raised? <==> SomeForeign(r, items))
            && (outcome.Done? ==> (nonce in outcome.progress.seen <==> OnSomeLine(r, items, nonce)))
  {
    var items := Items(states[i].chain);
    EveryScanIsAFullScan(r, states, events, i);
    RaisesExactly(r, Progress({}, None), items);
    FoldSeen(r, Progress({}, None), {}, items);
    NoncesExactly(r, items, nonce);
  }

  // ----- A seal that was written is used -----

  /** The last line with a hash, if no later append can change it. */
  ghost predicate FirmAnchor(r: Reader, items: seq<Item>, k: nat, open: Option<nat>) {
    && k < |items| && HasHash(r, items[k]) && (forall j | k < j < |items| :: !HasHash(r, items[j]))
    && (k < |items| - 1 || Closed(items[k], open))
  }

  /** Line `k` is on the chain and will stay. */
  ghost predicate StaysAt(items: seq<Item>, k: nat, line: Item, open: Option<nat>) {
    k < |items| && items[k] == line && (k < |items| - 1 || Closed(line, open))
  }

  lemma GrowthKeepsLine(a: seq<Item>, b: seq<Item>, k: nat, line: Item, open: Option<nat>, reopened: Option<nat>)
    requires Grown(a, b, open) && StaysAt(a, k, line, open)
    requires Closed(line, open) && line in a ==> Closed(line, reopened)
    ensures StaysAt(b, k, line, reopened)
  {
    var n := |a| - 1;
    if k < n {
      assert a[..n][k] == b[..n][k];
    }
  }

  lemma WriteKeepsLine(r: Reader, s: State, e: Event, k: nat, line: Item)
    requires Sorted(s.chain) && Possible(r, s, e) && (e.Appended? || e.Created?)
    requires StaysAt(Items(s.chain), k, line, OpenFile(s.chain))
    ensures StaysAt(Items(Next(r, s, e).chain), k, line, OpenFile(Next(r, s, e).chain))
    ensures Sorted(Next(r, s, e).chain) && Next(r, s, e).seal == s.seal
  {
    match e
    case Appended(bytes) =>
      AppendGrows(s.chain, bytes);
      GrowthKeepsLine(Items(s.chain), Items(Append(s.chain, bytes)), k, line, OpenFile(s.chain), OpenFile(s.chain));
    case Created(name, bytes) =>
      CreateGrows(s.chain, name, bytes);
      GrowthKeepsLine(Items(s.chain), Items(Create(s.chain, name, bytes)), k, line, OpenFile(s.chain), Some(name));
  }

  lemma {:induction false} WritesKeepLine(r: Reader, states: seq<State>, events: seq<Event>, i: nat, j: nat, k: nat, line: Item)
    requires IsRun(r, states, events) && i <= j <= |events| && Sorted(states[i].chain)
    requires StaysAt(Items(states[i].chain), k, line, OpenFile(states[i].chain))
    requires forall m | i <= m < j :: events[m].Appended? || events[m].Created?
    ensures StaysAt(Items(states[j].chain), k, line, OpenFile(states[j].chain))
    ensures Sorted(states[j].chain) && states[j].seal == states[i].seal
    decreases j
  {
    if i < j {
      WritesKeepLine(r, states, events, i, j - 1, k, line);
      WriteKeepsLine(r, states[j - 1], events[j - 1], k, line);
    }
  }

  lemma AnchorsAtLastHash(r: Reader, items: seq<Item>, k: nat)
    requires Fold(r, NOTHING, items).Done? && k < |items| && HasHash(r, items[k])
    requires forall j | k < j < |items| :: !HasHash(r, items[j])
    ensures Fold(r, NOTHING, items).progress.anchor ==
            Some(Anchor(items[k].file, items[k].start, items[k].number, r.parse(items[k].bytes).hash))
  {
    if Fold(r, NOTHING, items).progress.anchor.Some? {
      var m := AnchorIsLastHash(r, items);
    } else {
      NoAnchorNoHash(r, items, Progress({}, None), k);
    }
  }

  lemma {:induction false} NoAnchorNoHash(r: Reader, items: seq<Item>, p: Progress, k: nat)
    requires k < |items| && HasHash(r, items[k]) && Fold(r, Done(p), items).Done?
    ensures Fold(r, Done(p), items).progress.anchor.Some?
    decreases |items|
  {
    var next := Step(r, Done(p), items[0]);
    if next.Raised? {
      FoldOfRaised(r, items[1..]);
    } else if k > 0 {
      assert items[1..][k - 1] == items[k];
      NoAnchorNoHash(r, items[1..], next.progress, k - 1);
    } else {
      AnchorStays(r, items[1..], next.progress);
    }
  }

  lemma {:induction false} AnchorStays(r: Reader, items: seq<Item>, p: Progress)
    requires p.anchor.Some? && Fold(r, Done(p), items).Done?
    ensures Fold(r, Done(p), items).progress.anchor.Some?
    decreases |items|
  {
    if items != [] {
      var next := Step(r, Done(p), items[0]);
      if next.Raised? {
        FoldOfRaised(r, items[1..]);
      } else {
        AnchorStays(r, items[1..], next.progress);
      }
    }
  }

  /** Line `k` is a record with a real hash, and no later line carries the field at all. */
  ghost predicate LastHashIsReal(r: Reader, items: seq<Item>, k: nat) {
    && k < |items| && r.parse(items[k].bytes).Record? && r.parse(items[k].bytes).hash.Truthy?
    && forall j | k < j < |items| :: !HasHash(r, items[j])
  }

  lemma FoldEndsOnRealHash(r: Reader, items: seq<Item>)
    requires Fold(r, NOTHING, items).Done?
    ensures WritesSeal(Fold(r, NOTHING, items)) <==> SomeLastHashIsReal(r, items)
  {
    if WritesSeal(Fold(r, NOTHING, items)) {
      var k := AnchorIsLastHash(r, items);
      assert LastHashIsReal(r, items, k);
    }
    if SomeLastHashIsReal(r, items) {
      var k: nat :| LastHashIsReal(r, items, k);
      AnchorsAtLastHash(r, items, k);
    }
  }

  ghost predicate SomeLastHashIsReal(r: Reader, items: seq<Item>) {
    exists k: nat :: LastHashIsReal(r, items, k)
  }

  /** A scan that does not raise writes a seal exactly when the last hash on the chain is a real one. */
  lemma SealWrittenExactly(r: Reader, chain: seq<File>)
    requires FullScan(r, chain).Done?
    ensures WritesSeal(FullScan(r, chain)) <==> SomeLastHashIsReal(r, Items(chain))
  {
    FoldEndsOnRealHash(r, Items(chain));
  }

  /**
   A seal written in step `i`, with an anchor line that no append can change and that reads back, is
   accepted by the next scan after any appends and new files, and that scan reads exactly the lines
   behind the anchor.
   */
  lemma WrittenSealIsUsed(r: Reader, states: seq<State>, events: seq<Event>, i: nat, j: nat, k: nat)
    requires Lawful(r) && IsRun(r, states, events) && i < j < |events| && events[i].Scanned? && events[j].Scanned?
    requires forall m | i < m < j :: events[m].Appended? || events[m].Created?
    requires FullScan(r, states[i].chain).Done? && WritesSeal(FullScan(r, states[i].chain))
    requires FirmAnchor(r, Items(states[i].chain), k, OpenFile(states[i].chain))
    requires r.anchor(Items(states[i].chain)[k].bytes).Record?
    ensures var s := states[j];
            && Accepts(r, s.chain, s.seal) && k < |Items(s.chain)|
            && Pending(s.chain, StartOf(r, s.chain, s.seal)) == Items(s.chain)[k + 1..]
  {
    var items := Items(states[i].chain);
    var line, c := items[k], ContentOf(FullScan(r, states[i].chain).progress);
    EveryScanIsAFullScan(r, states, events, i);
    InvAlongRun(r, states, events, i + 1);
    AnchorsAtLastHash(r, items, k);
    WritesKeepLine(r, states, events, i + 1, j, k, line);
    FreshSealIsBelieved(r, c, line);
    ReadOnBehind(states[j].chain, k);
    SealedScanIs(r, states[j].chain, Present(Seal(c, r.checksum(c))), line, Items(states[j].chain)[k + 1..]);
  }
}
