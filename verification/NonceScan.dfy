/**
 The sealed scan for live-enablement nonces (core/hitl_gate.py:399-559).

 JSON reading is a parameter. `parse` is what the scan makes of a line (decoded, stripped,
 loaded); `anchor` is the same without stripping, as the seal check reads the anchor line.
 The checksum over a seal is a parameter too; nothing is assumed about it.
 */
module NonceScan {
  import opened Options
  import opened AuditChain

  const SEAL_VERSION := 2

  /** The value of the field "hash"; Falsy are null, "", 0 and the like. */
  datatype Hash = Missing | Falsy(text: string) | Truthy(text: string)

  /** Foreign: valid JSON that is not an object, on which the scan raises. */
  datatype Line = Noise | Foreign | Record(hash: Hash, nonce: Option<string>)

  datatype Content = Content(version: int, lastFile: nat, lastLineCount: nat, anchorOffset: int,
                             lastHash: Hash, nonces: set<string>)

  datatype Seal = Seal(content: Content, contentHash: string)

  /** Unreadable covers a file that is no JSON and one that lacks a mandatory field. */
  datatype SealFile = Absent | Unreadable | Present(seal: Seal)

  datatype Reader = Reader(parse: seq<Byte> -> Line, anchor: seq<Byte> -> Line, checksum: Content -> string)

  /** What `.get("hash")` yields. */
  function Got(h: Hash): string {
    if h.Missing? then "null" else h.text
  }

  /**
   What JSON guarantees. No object is read from nothing; stripping does not change an object;
   and if an object can be extended to one with the same hash, it is the same record.
   */
  ghost predicate Lawful(r: Reader) {
    && !r.anchor([]).Record?
    && (forall l :: r.anchor(l).Record? ==> r.parse(l) == r.anchor(l))
    && (forall l, m | l <= m && SameHash(r.parse(l), r.anchor(m)) :: r.anchor(m) == r.parse(l))
  }

  predicate SameHash(a: Line, b: Line) {
    a.Record? && a.hash.Truthy? && b.Record? && Got(a.hash) == Got(b.hash)
  }

  // ----- One pass over lines -----

  datatype Anchor = Anchor(file: nat, start: nat, number: nat, hash: Hash)

  datatype Progress = Progress(seen: set<string>, anchor: Option<Anchor>)

  datatype Outcome = Raised | Done(progress: Progress)

  function NonceSet(nonce: Option<string>): set<string> {
    if nonce.Some? then {nonce.value} else {}
  }

  function Step(r: Reader, acc: Outcome, item: Item): Outcome {
    if acc.Raised? then Raised
    else match r.parse(item.bytes)
      case Noise => acc
      case Foreign => Raised
      case Record(hash, nonce) =>
        var anchor := if hash.Missing? then acc.progress.anchor
                      else Some(Anchor(item.file, item.start, item.number, hash));
        Done(Progress(acc.progress.seen + NonceSet(nonce), anchor))
  }

  function Fold(r: Reader, acc: Outcome, items: seq<Item>): Outcome
    decreases |items|
  {
    if items == [] then acc else Fold(r, Step(r, acc, items[0]), items[1..])
  }

  const NOTHING := Done(Progress({}, None))

  /** The reference: the whole chain, no seal. */
  function FullScan(r: Reader, chain: seq<File>): Outcome {
    Fold(r, NOTHING, Items(chain))
  }

  // ----- The sealed scan -----

  predicate ChecksumHolds(r: Reader, seal: Seal) {
    seal.contentHash == r.checksum(seal.content)
  }

  /** The bytes the anchor check reads; None without a seal or when opening or seeking fails. */
  function AnchorLine(chain: seq<File>, file: SealFile): (line: Option<seq<Byte>>)
    ensures line.Some? ==> file.Present? && file.seal.content.anchorOffset >= 0
  {
    if file.Present? then LineAt(chain, file.seal.content.lastFile, file.seal.content.anchorOffset) else None
  }

  /** The seal is believed, given the line found at its anchor. */
  predicate Believes(r: Reader, file: SealFile, line: Option<seq<Byte>>) {
    && file.Present?
    && file.seal.content.version == SEAL_VERSION
    && ChecksumHolds(r, file.seal)
    && line.Some?
    && r.anchor(line.value).Record?
    && Got(r.anchor(line.value).hash) == Got(file.seal.content.lastHash)
  }

  function StartBehind(r: Reader, file: SealFile, line: Option<seq<Byte>>): Start
    requires line.Some? ==> file.Present? && file.seal.content.anchorOffset >= 0
  {
    if Believes(r, file, line) then
      var c := file.seal.content;
      Behind(c.lastFile, c.anchorOffset + |line.value|, c.lastLineCount)
    else Beginning
  }

  function ProgressBehind(r: Reader, file: SealFile, line: Option<seq<Byte>>): Progress
    requires line.Some? ==> file.Present? && file.seal.content.anchorOffset >= 0
  {
    if Believes(r, file, line) then
      var c := file.seal.content;
      Progress(c.nonces, Some(Anchor(c.lastFile, c.anchorOffset, c.lastLineCount, c.lastHash)))
    else Progress({}, None)
  }

  predicate Accepts(r: Reader, chain: seq<File>, file: SealFile) {
    Believes(r, file, AnchorLine(chain, file))
  }

  function StartOf(r: Reader, chain: seq<File>, file: SealFile): Start {
    StartBehind(r, file, AnchorLine(chain, file))
  }

  function SealedScan(r: Reader, chain: seq<File>, file: SealFile): Outcome {
    Fold(r, Done(ProgressBehind(r, file, AnchorLine(chain, file))), Pending(chain, StartOf(r, chain, file)))
  }

  function ContentOf(p: Progress): Content
    requires p.anchor.Some?
  {
    var a := p.anchor.value;
    Content(SEAL_VERSION, a.file, a.number, a.start, a.hash, p.seen)
  }

  predicate WritesSeal(outcome: Outcome) {
    outcome.Done? && outcome.progress.anchor.Some? && outcome.progress.anchor.value.hash.Truthy?
  }

  /** The seal file after a scan with this outcome. */
  function SealAfter(r: Reader, file: SealFile, outcome: Outcome): SealFile {
    if WritesSeal(outcome) then
      var c := ContentOf(outcome.progress);
      Present(Seal(c, r.checksum(c)))
    else file
  }

  // ----- Facts about a pass -----

  lemma {:induction false} FoldConcat(r: Reader, acc: Outcome, a: seq<Item>, b: seq<Item>)
    ensures Fold(r, acc, a + b) == Fold(r, Fold(r, acc, a), b)
    decreases |a|
  {
    if a == [] {
      assert a + b == b;
    } else {
      assert (a + b)[1..] == a[1..] + b;
      FoldConcat(r, Step(r, acc, a[0]), a[1..], b);
    }
  }

  lemma {:induction false} FoldOfRaised(r: Reader, items: seq<Item>)
    ensures Fold(r, Raised, items) == Raised
  {
    if items != [] {
      FoldOfRaised(r, items[1..]);
    }
  }

  /** The nonces on a sequence of lines. */
  function Nonces(r: Reader, items: seq<Item>): set<string> {
    if items == [] then {}
    else
      var line := r.parse(items[0].bytes);
      (if line.Record? then NonceSet(line.nonce) else {}) + Nonces(r, items[1..])
  }

  lemma {:induction false} NoncesConcat(r: Reader, a: seq<Item>, b: seq<Item>)
    ensures Nonces(r, a + b) == Nonces(r, a) + Nonces(r, b)
  {
    if a == [] {
      assert a + b == b;
    } else {
      assert (a + b)[1..] == a[1..] + b;
      NoncesConcat(r, a[1..], b);
    }
  }

  /** A pass adds exactly the nonces on its lines; what it started with only shows in `seen`. */
  lemma {:induction false} FoldSeen(r: Reader, p: Progress, more: set<string>, items: seq<Item>)
    ensures var one, two := Fold(r, Done(p), items), Fold(r, Done(Progress(p.seen + more, p.anchor)), items);
            && one.Raised? == two.Raised?
            && (one.Done? ==>
                 && one.progress.seen == p.seen + Nonces(r, items)
                 && two == Done(Progress(one.progress.seen + more, one.progress.anchor)))
    decreases |items|
  {
    if items != [] {
      var one, two := Step(r, Done(p), items[0]), Step(r, Done(Progress(p.seen + more, p.anchor)), items[0]);
      if one.Raised? {
        FoldOfRaised(r, items[1..]);
      } else {
        assert two == Done(Progress(one.progress.seen + more, one.progress.anchor));
        FoldSeen(r, one.progress, more, items[1..]);
      }
    }
  }

  predicate HasHash(r: Reader, item: Item) {
    var line := r.parse(item.bytes);
    line.Record? && !line.hash.Missing?
  }

  /** The anchor of a full pass is the last line that carries a hash. */
  lemma {:induction false} AnchorIsLastHash(r: Reader, items: seq<Item>) returns (k: nat)
    requires Fold(r, NOTHING, items).Done? && Fold(r, NOTHING, items).progress.anchor.Some?
    ensures k < |items| && HasHash(r, items[k])
    ensures Fold(r, NOTHING, items).progress.anchor.value ==
            Anchor(items[k].file, items[k].start, items[k].number, r.parse(items[k].bytes).hash)
    ensures forall j | k < j < |items| :: !HasHash(r, items[j])
    ensures Fold(r, NOTHING, items[..k]).Done?
    decreases |items|
  {
    var n := |items| - 1;
    assert items == items[..n] + [items[n]];
    FoldConcat(r, NOTHING, items[..n], [items[n]]);
    var before := Fold(r, NOTHING, items[..n]);
    assert Fold(r, before, [items[n]]) == Step(r, before, items[n]);
    if HasHash(r, items[n]) {
      k := n;
    } else {
      k := AnchorIsLastHash(r, items[..n]);
      assert items[..n][..k] == items[..k];
    }
  }

  // ----- When a seal speaks for a chain -----

  /**
   What was on the chain when the seal was written: the lines before the anchor, the anchor
   line as it was then, and lines behind it that no append can change any more.
   */
  datatype Witness = Witness(before: seq<Item>, anchor: Item, after: seq<Item>)

  ghost predicate SoundBy(r: Reader, c: Content, w: Witness, items: seq<Item>, open: Option<nat>) {
    var k := |w.before|;
    && k < |items|
    && w.before == items[..k]
    && (w.anchor.file, w.anchor.start, w.anchor.number) == (items[k].file, items[k].start, items[k].number)
    && w.anchor.bytes <= items[k].bytes
    && (c.lastFile, c.anchorOffset, c.lastLineCount) == (w.anchor.file, w.anchor.start, w.anchor.number)
    && (var line := r.parse(w.anchor.bytes);
        && line.Record? && line.hash == c.lastHash && c.lastHash.Truthy?
        && Fold(r, NOTHING, w.before).Done?
        && c.nonces == Nonces(r, w.before) + NonceSet(line.nonce) + Nonces(r, w.after))
    && Fixed(w, items, open)
  }

  /** The lines behind the anchor are on the chain, and none of them can still change. */
  ghost predicate Fixed(w: Witness, items: seq<Item>, open: Option<nat>) {
    var k, n := |w.before|, |w.after|;
    n > 0 ==>
      && k + 1 + n <= |items|
      && w.after == items[k + 1..k + 1 + n]
      && (k + 1 + n < |items| || Closed(w.after[n - 1], open))
  }

  ghost predicate Sound(r: Reader, c: Content, items: seq<Item>, open: Option<nat>) {
    c.version == SEAL_VERSION && exists w :: SoundBy(r, c, w, items, open)
  }

  lemma SliceEquality(a: seq<Item>, b: seq<Item>, lo: nat, hi: nat)
    requires lo <= hi <= |a| && hi <= |b| && forall i | lo <= i < hi :: a[i] == b[i]
    ensures a[lo..hi] == b[lo..hi]
  {
  }

  lemma SoundnessSurvivesGrowth(r: Reader, c: Content, w: Witness, a: seq<Item>, b: seq<Item>,
                                open: Option<nat>, reopened: Option<nat>)
    requires SoundBy(r, c, w, a, open) && Grown(a, b, open)
    requires forall item | item in a && Closed(item, open) :: Closed(item, reopened)
    ensures SoundBy(r, c, w, b, reopened)
  {
    var k, n, last := |w.before|, |w.after|, |a| - 1;
    assert a[..k] == a[..last][..k] == b[..last][..k] == b[..k];
    if k < last {
      assert a[k] == a[..last][k] == b[..last][k] == b[k];
    }
    if n > 0 {
      forall i | k + 1 <= i < k + 1 + n ensures a[i] == b[i] {
        if i < last {
          assert a[i] == a[..last][i] == b[..last][i] == b[i];
        }
      }
      SliceEquality(a, b, k + 1, k + 1 + n);
      assert w.after[n - 1] == a[k + n] && a[k + n] in a;
    }
  }

  lemma PassSplitsAt(r: Reader, items: seq<Item>, k: nat)
    requires k < |items|
    ensures Fold(r, NOTHING, items) == Fold(r, Step(r, Fold(r, NOTHING, items[..k]), items[k]), items[k + 1..])
  {
    assert items == items[..k] + items[k..];
    FoldConcat(r, NOTHING, items[..k], items[k..]);
    assert items[k..][1..] == items[k + 1..];
  }

  /** Resuming behind the anchor with the sealed nonces is as good as the whole pass. */
  lemma ResumingIsExact(r: Reader, c: Content, w: Witness, items: seq<Item>, open: Option<nat>)
    requires SoundBy(r, c, w, items, open)
    requires r.parse(items[|w.before|].bytes) == r.parse(w.anchor.bytes)
    ensures var anchor := Some(Anchor(c.lastFile, w.anchor.start, c.lastLineCount, c.lastHash));
            Fold(r, Done(Progress(c.nonces, anchor)), items[|w.before| + 1..]) == Fold(r, NOTHING, items)
  {
    var k := |w.before|;
    var line, rest := r.parse(w.anchor.bytes), items[k + 1..];
    FoldSeen(r, NOTHING.progress, {}, w.before);
    var seen := Nonces(r, w.before) + NonceSet(line.nonce);
    var at := Progress(seen, Some(Anchor(c.lastFile, w.anchor.start, c.lastLineCount, c.lastHash)));
    PassSplitsAt(r, items, k);
    assert Fold(r, NOTHING, items[..k]).progress.seen == Nonces(r, w.before);
    assert Step(r, Fold(r, NOTHING, items[..k]), items[k]) == Done(at);
    FoldSeen(r, at, Nonces(r, w.after), rest);
    AfterIsPending(r, w, items, open);
    var full := Fold(r, Done(at), rest);
    assert full.Done? ==> full.progress.seen + Nonces(r, w.after) == full.progress.seen;
  }

  lemma AfterIsPending(r: Reader, w: Witness, items: seq<Item>, open: Option<nat>)
    requires |w.before| < |items| && Fixed(w, items, open)
    ensures Nonces(r, w.after) <= Nonces(r, items[|w.before| + 1..])
  {
    var rest, n := items[|w.before| + 1..], |w.after|;
    if n > 0 {
      assert rest == w.after + rest[n..];
      NoncesConcat(r, w.after, rest[n..]);
    }
  }

  /** The content names this line. */
  predicate Names(c: Content, item: Item) {
    (c.lastFile, c.anchorOffset, c.lastLineCount) == (item.file, item.start, item.number)
  }

  /** The anchor line is found again: it is still the record it was. */
  lemma AnchorIsFound(r: Reader, file: SealFile, was: seq<Byte>, now: seq<Byte>)
    requires Lawful(r) && Believes(r, file, Some(now)) && was <= now
    requires r.parse(was).Record? && r.parse(was).hash.Truthy? && r.parse(was).hash == file.seal.content.lastHash
    ensures r.parse(now) == r.parse(was)
  {
    assert SameHash(r.parse(was), r.anchor(now));
  }

  /** The content names the k-th line; believed on it, resuming there completes a full pass. */
  ghost predicate Resumes(r: Reader, file: SealFile, items: seq<Item>, k: nat) {
    && k < |items| && file.Present? && Names(file.seal.content, items[k])
    && (var line := Some(items[k].bytes);
        Believes(r, file, line) ==>
          && StartBehind(r, file, line) == Behind(items[k].file, items[k].start + |items[k].bytes|, items[k].number)
          && Fold(r, Done(ProgressBehind(r, file, line)), items[k + 1..]) == Fold(r, NOTHING, items))
  }

  lemma SoundResumes(r: Reader, file: SealFile, items: seq<Item>, open: Option<nat>) returns (k: nat)
    requires Lawful(r) && file.Present? && Sound(r, file.seal.content, items, open)
    ensures Resumes(r, file, items, k)
  {
    var w :| SoundBy(r, file.seal.content, w, items, open);
    k := |w.before|;
    if Believes(r, file, Some(items[k].bytes)) {
      AnchorIsFound(r, file, w.anchor.bytes, items[k].bytes);
      ResumingIsExact(r, file.seal.content, w, items, open);
    }
  }

  /** What is read with the seal are the lines behind the anchor line, and no others. */
  ghost predicate ReadsBehindAnchor(r: Reader, chain: seq<File>, file: SealFile, k: nat) {
    && k < |Items(chain)| && file.Present?
    && Items(chain)[k].file == file.seal.content.lastFile
    && Items(chain)[k].start == file.seal.content.anchorOffset
    && Pending(chain, StartOf(r, chain, file)) == Items(chain)[k + 1..]
  }

  /** A scan with the seal, given the line found at the anchor and what is read behind it. */
  lemma SealedScanIs(r: Reader, chain: seq<File>, file: SealFile, item: Item, rest: seq<Item>)
    requires file.Present? && Names(file.seal.content, item) && ReadsOn(chain, item, rest)
    requires Believes(r, file, Some(item.bytes))
    requires StartBehind(r, file, Some(item.bytes)) == Behind(item.file, item.start + |item.bytes|, item.number)
    ensures Accepts(r, chain, file) && Pending(chain, StartOf(r, chain, file)) == rest
    ensures SealedScan(r, chain, file) == Fold(r, Done(ProgressBehind(r, file, Some(item.bytes))), rest)
  {
    assert AnchorLine(chain, file) == Some(item.bytes);
  }

  /** An accepted seal is believed on the line its content names. */
  lemma AcceptedIsBelieved(r: Reader, chain: seq<File>, file: SealFile, item: Item, rest: seq<Item>)
    requires Accepts(r, chain, file) && Names(file.seal.content, item) && ReadsOn(chain, item, rest)
    ensures Believes(r, file, Some(item.bytes))
  {
  }

  /** An accepted seal of the chain yields what reading the whole chain yields. */
  lemma AcceptedSealIsExact(r: Reader, chain: seq<File>, file: SealFile) returns (k: nat)
    requires Lawful(r) && Sorted(chain)
    requires Accepts(r, chain, file) && Sound(r, file.seal.content, Items(chain), OpenFile(chain))
    ensures SealedScan(r, chain, file) == FullScan(r, chain)
    ensures ReadsBehindAnchor(r, chain, file, k)
  {
    k := SoundResumes(r, file, Items(chain), OpenFile(chain));
    ReadOnBehind(chain, k);
    AcceptedIsBelieved(r, chain, file, Items(chain)[k], Items(chain)[k + 1..]);
    SealedScanIs(r, chain, file, Items(chain)[k], Items(chain)[k + 1..]);
  }

  /**
   While the last line can still be torn, a nonce on it either comes with a hash or stands on an
   earlier line as well. The chain's writer gives every record a hash
   (core/round_table/senate_log.py:644-649).
   */
  ghost predicate TailIsSafe(r: Reader, items: seq<Item>, open: Option<nat>) {
    items != [] && !Closed(items[|items| - 1], open) ==>
      var line := r.parse(items[|items| - 1].bytes);
      line.Record? && line.nonce.Some? && line.hash.Missing? ==> line.nonce.value in Nonces(r, items[..|items| - 1])
  }

  /** What can no longer change behind the anchor; a line left out adds no nonce. */
  lemma UnchangeableBehind(r: Reader, items: seq<Item>, k: nat, open: Option<nat>) returns (after: seq<Item>)
    requires k < |items| && TailIsSafe(r, items, open) && HasHash(r, items[k])
    requires forall j | k < j < |items| :: !HasHash(r, items[j])
    ensures Fixed(Witness(items[..k], items[k], after), items, open)
    ensures Nonces(r, items[..k]) + NonceSet(r.parse(items[k].bytes).nonce) + Nonces(r, after) == Nonces(r, items)
  {
    var n := |items| - 1;
    if k < n && !Closed(items[n], open) {
      after := items[k + 1..n];
      assert items == items[..n] + [items[n]];
      NoncesConcat(r, items[..n], [items[n]]);
      NoncesSplitAt(r, items[..n], k);
      assert items[..n][..k] == items[..k] && items[..n][k + 1..] == after;
      assert !HasHash(r, items[n]);
      assert Nonces(r, [items[n]]) <= Nonces(r, items[..n]) by {
        assert [items[n]][1..] == [];
      }
    } else {
      after := items[k + 1..];
      NoncesSplitAt(r, items, k);
    }
  }

  lemma NoncesSplitAt(r: Reader, items: seq<Item>, k: nat)
    requires k < |items| && HasHash(r, items[k])
    ensures Nonces(r, items) == Nonces(r, items[..k]) + NonceSet(r.parse(items[k].bytes).nonce) + Nonces(r, items[k + 1..])
  {
    assert items == items[..k] + items[k..];
    NoncesConcat(r, items[..k], items[k..]);
    assert items[k..][1..] == items[k + 1..];
  }

  /** The seal a full pass writes speaks for the chain. */
  lemma WrittenSealIsSound(r: Reader, chain: seq<File>)
    requires WritesSeal(FullScan(r, chain)) && TailIsSafe(r, Items(chain), OpenFile(chain))
    ensures Sound(r, ContentOf(FullScan(r, chain).progress), Items(chain), OpenFile(chain))
  {
    var items := Items(chain);
    var k := AnchorIsLastHash(r, items);
    var after := UnchangeableBehind(r, items, k, OpenFile(chain));
    FoldSeen(r, NOTHING.progress, {}, items);
    assert SoundBy(r, ContentOf(FullScan(r, chain).progress), Witness(items[..k], items[k], after), items, OpenFile(chain));
  }

  // ----- Runs -----

  /** `written` lists the content of every seal a scan has written so far. */
  datatype State = State(chain: seq<File>, seal: SealFile, written: seq<Content>)

  datatype Event =
    | Appended(bytes: seq<Byte>)
    | Created(name: nat, bytes: seq<Byte>)
    | SealLost
    | SealUnreadable
    | SealDamaged(seal: Seal)
    | SealRestored(index: nat)
    | Scanned
    | ScanFailed(read: nat)        // the operating system fails after so many lines: no seal is written

  /**
   Writers append to the last file or begin a later-named one; a damaged seal fails its
   checksum; an old copy of any seal ever written may come back.
   */
  ghost predicate Possible(r: Reader, s: State, e: Event) {
    match e
    case Appended(_) => s.chain != []
    case Created(name, _) => forall f | f in s.chain :: f.name < name
    case SealDamaged(seal) => !ChecksumHolds(r, seal)
    case SealRestored(i) => i < |s.written|
    case Scanned => WritesSeal(FullScan(r, s.chain)) ==> TailIsSafe(r, Items(s.chain), OpenFile(s.chain))
    case _ => true
  }

  ghost function Next(r: Reader, s: State, e: Event): State
    requires Possible(r, s, e)
  {
    match e
    case Appended(bytes) => s.(chain := Append(s.chain, bytes))
    case Created(name, bytes) => s.(chain := Create(s.chain, name, bytes))
    case SealLost => s.(seal := Absent)
    case SealUnreadable => s.(seal := Unreadable)
    case SealDamaged(seal) => s.(seal := Present(seal))
    case SealRestored(i) => s.(seal := Present(Seal(s.written[i], r.checksum(s.written[i]))))
    case Scanned =>
      var outcome := SealedScan(r, s.chain, s.seal);
      s.(seal := SealAfter(r, s.seal, outcome),
         written := if WritesSeal(outcome) then s.written + [ContentOf(outcome.progress)] else s.written)
    case ScanFailed(_) => s
  }

  ghost predicate IsRun(r: Reader, states: seq<State>, events: seq<Event>) {
    && |states| == |events| + 1
    && Sorted(states[0].chain) && !states[0].seal.Present? && states[0].written == []
    && forall i | 0 <= i < |events| ::
         Possible(r, states[i], events[i]) && states[i + 1] == Next(r, states[i], events[i])
  }

  ghost predicate Inv(r: Reader, s: State) {
    && Sorted(s.chain)
    && (forall c | c in s.written :: Sound(r, c, Items(s.chain), OpenFile(s.chain)))
    && (s.seal.Present? && ChecksumHolds(r, s.seal.seal) ==> s.seal.seal.content in s.written)
  }

  lemma ScanIsFullScan(r: Reader, s: State)
    requires Lawful(r) && Inv(r, s)
    ensures SealedScan(r, s.chain, s.seal) == FullScan(r, s.chain)
  {
    if Accepts(r, s.chain, s.seal) {
      var _ := AcceptedSealIsExact(r, s.chain, s.seal);
    } else {
      PendingFromBeginning(s.chain);
    }
  }

  lemma GrowthKeepsSeals(r: Reader, s: State, chain: seq<File>)
    requires Inv(r, s) && Sorted(chain) && Grown(Items(s.chain), Items(chain), OpenFile(s.chain))
    requires forall item | item in Items(s.chain) && Closed(item, OpenFile(s.chain)) :: Closed(item, OpenFile(chain))
    ensures Inv(r, s.(chain := chain))
  {
    forall c | c in s.written ensures Sound(r, c, Items(chain), OpenFile(chain)) {
      var w :| SoundBy(r, c, w, Items(s.chain), OpenFile(s.chain));
      SoundnessSurvivesGrowth(r, c, w, Items(s.chain), Items(chain), OpenFile(s.chain), OpenFile(chain));
    }
  }

  lemma InvIsKept(r: Reader, s: State, e: Event)
    requires Lawful(r) && Inv(r, s) && Possible(r, s, e)
    ensures Inv(r, Next(r, s, e))
  {
    match e
    case Appended(bytes) =>
      AppendGrows(s.chain, bytes);
      GrowthKeepsSeals(r, s, Append(s.chain, bytes));
    case Created(name, bytes) =>
      CreateGrows(s.chain, name, bytes);
      GrowthKeepsSeals(r, s, Create(s.chain, name, bytes));
    case Scanned =>
      ScanIsFullScan(r, s);
      if WritesSeal(FullScan(r, s.chain)) {
        WrittenSealIsSound(r, s.chain);
      }
    case _ =>
  }

  lemma {:induction false} InvAlongRun(r: Reader, states: seq<State>, events: seq<Event>, i: nat)
    requires Lawful(r) && IsRun(r, states, events) && i <= |events|
    ensures Inv(r, states[i])
  {
    if i > 0 {
      InvAlongRun(r, states, events, i - 1);
      InvIsKept(r, states[i - 1], events[i - 1]);
    }
  }

  /**
   Over every run of appends, new files, torn lines, lost, damaged or restored seals and scans:
   each scan returns what a full rescan returns, raises when it raises, writes the seal it
   would write, and with an accepted seal reads the lines behind the anchor only.
   */
  lemma EveryScanIsAFullScan(r: Reader, states: seq<State>, events: seq<Event>, i: nat)
    requires Lawful(r) && IsRun(r, states, events)
    requires i < |events| && events[i].Scanned?
    ensures var s := states[i];
            && SealedScan(r, s.chain, s.seal) == FullScan(r, s.chain)
            && states[i + 1].seal == SealAfter(r, s.seal, FullScan(r, s.chain))
            && (Accepts(r, s.chain, s.seal) ==> exists k :: ReadsBehindAnchor(r, s.chain, s.seal, k))
  {
    InvAlongRun(r, states, events, i);
    ScanIsFullScan(r, states[i]);
    if Accepts(r, states[i].chain, states[i].seal) {
      var k := AcceptedSealIsExact(r, states[i].chain, states[i].seal);
    }
  }

  // ----- When reading the chain fails half-way -----

  function Firsts(lines: seq<Item>, n: nat): seq<Item> {
    if n < |lines| then lines[..n] else lines
  }

  /** What a scan has seen when the operating system fails after `read` lines; it returns that. */
  function PartialScan(r: Reader, chain: seq<File>, file: SealFile, read: nat): Outcome {
    Fold(r, Done(ProgressBehind(r, file, AnchorLine(chain, file))), Firsts(Pending(chain, StartOf(r, chain, file)), read))
  }

  lemma FirstsSee(r: Reader, p: Progress, lines: seq<Item>, n: nat)
    ensures var outcome := Fold(r, Done(p), Firsts(lines, n));
            outcome.Done? ==> outcome.progress.seen <= p.seen + Nonces(r, lines)
  {
    FoldSeen(r, p, {}, Firsts(lines, n));
    if n < |lines| {
      assert lines == lines[..n] + lines[n..];
      NoncesConcat(r, lines[..n], lines[n..]);
    }
  }

  /** A sealed start knows only nonces of the chain: the k-th line is the anchor the content names. */
  lemma SealedNoncesAreOnChain(r: Reader, file: SealFile, items: seq<Item>, open: Option<nat>) returns (k: nat)
    requires Lawful(r) && file.Present? && Sound(r, file.seal.content, items, open)
    ensures k < |items| && Names(file.seal.content, items[k])
    ensures Believes(r, file, Some(items[k].bytes)) ==>
              file.seal.content.nonces + Nonces(r, items[k + 1..]) <= Nonces(r, items)
  {
    var w :| SoundBy(r, file.seal.content, w, items, open);
    k := |w.before|;
    if Believes(r, file, Some(items[k].bytes)) {
      AnchorIsFound(r, file, w.anchor.bytes, items[k].bytes);
      AfterIsPending(r, w, items, open);
      NoncesSplitAt(r, items, k);
    }
  }

  lemma AcceptedStart(r: Reader, chain: seq<File>, file: SealFile, item: Item, rest: seq<Item>)
    requires Accepts(r, chain, file) && Names(file.seal.content, item) && ReadsOn(chain, item, rest)
    ensures Believes(r, file, Some(item.bytes)) && Pending(chain, StartOf(r, chain, file)) == rest
    ensures ProgressBehind(r, file, AnchorLine(chain, file)).seen == file.seal.content.nonces
  {
    AcceptedIsBelieved(r, chain, file, item, rest);
    assert AnchorLine(chain, file) == Some(item.bytes);
    assert StartOf(r, chain, file) == Behind(item.file, item.start + |item.bytes|, item.number);
  }

  lemma StartsOnChain(r: Reader, s: State)
    requires Lawful(r) && Inv(r, s)
    ensures ProgressBehind(r, s.seal, AnchorLine(s.chain, s.seal)).seen + Nonces(r, Pending(s.chain, StartOf(r, s.chain, s.seal)))
            <= Nonces(r, Items(s.chain))
  {
    if Accepts(r, s.chain, s.seal) {
      var k := SealedNoncesAreOnChain(r, s.seal, Items(s.chain), OpenFile(s.chain));
      ReadOnBehind(s.chain, k);
      AcceptedStart(r, s.chain, s.seal, Items(s.chain)[k], Items(s.chain)[k + 1..]);
    } else {
      PendingFromBeginning(s.chain);
    }
  }

  /** Fail-open, but only so far: a scan that fails half-way returns nonces of the chain and no others. */
  lemma FailedScanInventsNothing(r: Reader, states: seq<State>, events: seq<Event>, i: nat)
    requires Lawful(r) && IsRun(r, states, events)
    requires i < |events| && events[i].ScanFailed?
    ensures var s, outcome := states[i], PartialScan(r, states[i].chain, states[i].seal, events[i].read);
            && states[i + 1] == s
            && (outcome.Done? ==> outcome.progress.seen <= Nonces(r, Items(s.chain)))
  {
    var s := states[i];
    InvAlongRun(r, states, events, i);
    StartsOnChain(r, s);
    FirstsSee(r, ProgressBehind(r, s.seal, AnchorLine(s.chain, s.seal)), Pending(s.chain, StartOf(r, s.chain, s.seal)), events[i].read);
  }

  // ----- Where the condition on the last line is needed -----

  /** Resuming anywhere on a chain that can be read never raises and never forgets. */
  lemma ResumingKeepsSeen(r: Reader, items: seq<Item>, k: nat, p: Progress)
    requires k < |items| && Fold(r, NOTHING, items).Done?
    requires HasHash(r, items[k])
    requires p.anchor == Some(Anchor(items[k].file, items[k].start, items[k].number, r.parse(items[k].bytes).hash))
    ensures var outcome := Fold(r, Done(p), items[k + 1..]);
            outcome.Done? && p.seen <= outcome.progress.seen
  {
    var rest := items[k + 1..];
    PassSplitsAt(r, items, k);
    var before := Fold(r, NOTHING, items[..k]);
    if before.Raised? {
      FoldOfRaised(r, rest);
    } else {
      var at := Step(r, before, items[k]).progress;
      FoldSeen(r, Progress({}, p.anchor), at.seen, rest);
      FoldSeen(r, Progress({}, p.anchor), p.seen, rest);
      assert {} + at.seen == at.seen && {} + p.seen == p.seen;
    }
  }

  lemma FreshSealIsBelieved(r: Reader, c: Content, item: Item)
    requires Lawful(r) && Names(c, item)
    requires c.version == SEAL_VERSION
    requires r.anchor(item.bytes).Record? && r.parse(item.bytes).Record? && r.parse(item.bytes).hash == c.lastHash
    ensures var file: SealFile, line := Present(Seal(c, r.checksum(c))), Some(item.bytes);
            && Believes(r, file, line)
            && StartBehind(r, file, line) == Behind(item.file, item.start + |item.bytes|, item.number)
            && ProgressBehind(r, file, line) == Progress(c.nonces, Some(Anchor(item.file, item.start, item.number, c.lastHash)))
  {
  }

  /**
   If the last line is a nonce record that has neither a hash nor a line break when it is
   scanned, and a later append makes it unreadable, the sealed scan keeps a nonce that a full
   rescan no longer finds.
   */
  lemma TornNonceIsKept(r: Reader, chain: seq<File>, bytes: seq<Byte>, nonce: string)
    requires Lawful(r) && Sorted(chain) && chain != []
    requires WritesSeal(FullScan(r, chain))
    requires TornNonce(r, Items(chain), Items(Append(chain, bytes)), nonce, OpenFile(chain))
    ensures var later, seal := Append(chain, bytes), SealAfter(r, Absent, FullScan(r, chain));
            && SealedScan(r, later, seal).Done? && nonce in SealedScan(r, later, seal).progress.seen
            && FullScan(r, later).Done? && nonce !in FullScan(r, later).progress.seen
  {
    var was, now := Items(chain), Items(Append(chain, bytes));
    AppendGrows(chain, bytes);
    var k := TornNonceIsCarried(r, was, now, nonce, OpenFile(chain));
    var c := ContentOf(FullScan(r, chain).progress);
    ReadOnBehind(Append(chain, bytes), k);
    FreshSealIsBelieved(r, c, now[k]);
    SealedScanIs(r, Append(chain, bytes), Present(Seal(c, r.checksum(c))), now[k], now[k + 1..]);
  }

  lemma TornNonceIsCarried(r: Reader, was: seq<Item>, now: seq<Item>, nonce: string, open: Option<nat>) returns (k: nat)
    requires WritesSeal(Fold(r, NOTHING, was)) && TornNonce(r, was, now, nonce, open) && Grown(was, now, open)
    ensures k < |now| && r.anchor(now[k].bytes).Record?
    ensures var c := ContentOf(Fold(r, NOTHING, was).progress);
            && Names(c, now[k]) && r.parse(now[k].bytes).Record? && r.parse(now[k].bytes).hash == c.lastHash
            && (var outcome := Fold(r, Done(Progress(c.nonces, Some(Anchor(now[k].file, now[k].start, now[k].number, c.lastHash)))), now[k + 1..]);
                outcome.Done? && nonce in outcome.progress.seen)
    ensures Fold(r, NOTHING, now).Done? && nonce !in Fold(r, NOTHING, now).progress.seen
  {
    k := AnchorIsLastHash(r, was);
    assert now[k] == now[..|was| - 1][k] && was[k] == was[..|was| - 1][k];
    assert was[k] in was;
    NoiseIsSkipped(r, was, now);
    var c := ContentOf(Fold(r, NOTHING, was).progress);
    ResumingKeepsSeen(r, now, k, Progress(c.nonces, Some(Anchor(now[k].file, now[k].start, now[k].number, c.lastHash))));
  }

  /** Any record without a line break can be made unreadable by what is appended to it. */
  ghost predicate Spoilable(r: Reader) {
    forall l | !Terminated(l) && r.parse(l).Record? :: exists x :: NEWLINE !in x && r.parse(l + x).Noise?
  }

  /** A record reads back as the anchor line, where nothing is stripped. */
  ghost predicate ReadsBack(r: Reader) {
    forall l | r.parse(l).Record? :: r.anchor(l).Record?
  }

  ghost predicate SealAgrees(r: Reader, chain: seq<File>, seal: SealFile) {
    SealedScan(r, chain, seal) == FullScan(r, chain)
  }

  /**
   The exact condition on the last line: the seal a full scan writes agrees with a full scan after
   every append if and only if the tail is safe when it is written.
   */
  lemma SealAgreesExactlyWhenTailIsSafe(r: Reader, chain: seq<File>)
    requires Lawful(r) && Spoilable(r) && ReadsBack(r) && Sorted(chain) && chain != []
    requires WritesSeal(FullScan(r, chain))
    ensures TailIsSafe(r, Items(chain), OpenFile(chain)) <==>
            forall bytes :: SealAgrees(r, Append(chain, bytes), SealAfter(r, Absent, FullScan(r, chain)))
  {
    var seal := SealAfter(r, Absent, FullScan(r, chain));
    if TailIsSafe(r, Items(chain), OpenFile(chain)) {
      forall bytes ensures SealAgrees(r, Append(chain, bytes), seal) {
        SafeSealAgrees(r, chain, bytes);
      }
    } else {
      var was, n := Items(chain), |Items(chain)| - 1;
      var nonce := r.parse(was[n].bytes).nonce.value;
      var x :| NEWLINE !in x && r.parse(was[n].bytes + x).Noise?;
      AppendExtendsOpenLine(chain, x);
      TornNonceIsKept(r, chain, x, nonce);
      assert !SealAgrees(r, Append(chain, x), seal);
    }
  }

  lemma SafeSealAgrees(r: Reader, chain: seq<File>, bytes: seq<Byte>)
    requires Lawful(r) && Sorted(chain) && chain != []
    requires WritesSeal(FullScan(r, chain)) && TailIsSafe(r, Items(chain), OpenFile(chain))
    ensures SealAgrees(r, Append(chain, bytes), SealAfter(r, Absent, FullScan(r, chain)))
  {
    var c := ContentOf(FullScan(r, chain).progress);
    WrittenSealIsSound(r, chain);
    AppendGrows(chain, bytes);
    var s := State(chain, SealAfter(r, Absent, FullScan(r, chain)), [c]);
    GrowthKeepsSeals(r, s, Append(chain, bytes));
    ScanIsFullScan(r, s.(chain := Append(chain, bytes)));
  }

  // ----- A reader and a chain on which the condition fails -----

  const HASHED: seq<Byte> := [1, NEWLINE]
  const BARE: seq<Byte> := [2]
  const MORE: seq<Byte> := [3]

  function SampleLine(l: seq<Byte>): Line {
    if l == HASHED then Record(Truthy("h"), None) else if l == BARE then Record(Missing, Some("n")) else Noise
  }

  function SampleReader(): Reader {
    Reader(SampleLine, SampleLine, (c: Content) => "")
  }

  lemma SampleItems()
    ensures Items([File(0, HASHED + BARE)]) == [Item(0, 0, 1, HASHED), Item(0, 2, 2, BARE)]
  {
    var text := HASHED + BARE;
    ItemsOfOne(File(0, text));
    assert text == [1, NEWLINE, 2];
    assert LineEnd(text, 0) == 2 && LineEnd(text, 2) == 3;
    assert text[0..2] == HASHED && text[2..3] == BARE;
    assert ItemsFrom(0, text, 3, 2) == [];
    assert ItemsFrom(0, text, 2, 1) == [Item(0, 2, 2, BARE)];
  }

  lemma SampleReaderIsLawful()
    ensures var r := SampleReader(); Lawful(r) && Spoilable(r) && ReadsBack(r)
  {
    var r := SampleReader();
    forall l | !Terminated(l) && r.parse(l).Record? ensures NEWLINE !in MORE && r.parse(l + MORE).Noise? {
      assert |l + MORE| == 2 && (l + MORE)[1] == 3;
    }
  }

  lemma SampleWritesSeal(a: Item, b: Item)
    requires a.bytes == HASHED && b.bytes == BARE
    ensures WritesSeal(Fold(SampleReader(), NOTHING, [a, b]))
  {
    var r, items := SampleReader(), [a, b];
    var one := Step(r, NOTHING, a);
    var two := Step(r, one, b);
    assert one == Done(Progress({}, Some(Anchor(a.file, a.start, a.number, Truthy("h")))));
    assert two.Done? && two.progress.anchor == one.progress.anchor;
    assert items[1..] == [b] && [b][1..] == [];
    assert Fold(r, one, [b]) == Fold(r, two, []) == two;
    assert Fold(r, NOTHING, items) == Fold(r, one, items[1..]);
  }

  lemma SampleIsTorn(was: seq<Item>, now: seq<Item>, open: Option<nat>)
    requires |was| == |now| == 2 && was[0].bytes == HASHED && was[1].bytes == BARE && now[1].bytes == BARE + MORE
    requires open == Some(was[1].file)
    ensures TornNonce(SampleReader(), was, now, "n", open)
  {
    assert was[..1] == [was[0]] && was[..1][1..] == [];
    assert |BARE + MORE| == 2 && (BARE + MORE)[1] == 3;
  }

  /** The input: a hashed line, then a bare nonce without a line break, then one more byte. */
  lemma TornNonceHappens()
    ensures var r, chain := SampleReader(), [File(0, HASHED + BARE)];
            && Lawful(r) && Spoilable(r) && ReadsBack(r) && Sorted(chain) && WritesSeal(FullScan(r, chain))
            && TornNonce(r, Items(chain), Items(Append(chain, MORE)), "n", OpenFile(chain))
  {
    var chain := [File(0, HASHED + BARE)];
    SampleReaderIsLawful();
    SampleItems();
    SampleWritesSeal(Item(0, 0, 1, HASHED), Item(0, 2, 2, BARE));
    AppendExtendsOpenLine(chain, MORE);
    SampleIsTorn(Items(chain), Items(Append(chain, MORE)), OpenFile(chain));
  }

  /** The last line was a bare nonce record and is noise now; the nonce is nowhere else. */
  ghost predicate TornNonce(r: Reader, was: seq<Item>, now: seq<Item>, nonce: string, open: Option<nat>) {
    && |was| == |now| > 0
    && var n := |was| - 1;
       && !Closed(was[n], open)
       && r.parse(was[n].bytes) == Record(Missing, Some(nonce))
       && nonce !in Nonces(r, was[..n])
       && r.parse(now[n].bytes).Noise?
       && forall item | item in was && HasHash(r, item) :: r.anchor(item.bytes).Record?
  }

  lemma NoiseIsSkipped(r: Reader, items: seq<Item>, later: seq<Item>)
    requires |items| == |later| > 0 && Fold(r, NOTHING, items).Done?
    requires var n := |items| - 1;
             items[..n] == later[..n] && r.parse(items[n].bytes).Record? && r.parse(later[n].bytes).Noise?
    ensures var n := |items| - 1;
            && Fold(r, NOTHING, later).Done?
            && Fold(r, NOTHING, later).progress.seen == Nonces(r, items[..n])
            && Fold(r, NOTHING, items).progress.seen == Nonces(r, items[..n]) + NonceSet(r.parse(items[n].bytes).nonce)
  {
    var n := |items| - 1;
    PassSplitsAt(r, items, n);
    PassSplitsAt(r, later, n);
    FoldSeen(r, NOTHING.progress, {}, items[..n]);
  }

  /** Lines written to a file that sorts before the sealed one are never read by a sealed scan. */
  lemma EarlierFilesAreNotRead(r: Reader, chain: seq<File>, i: nat, text: seq<Byte>, file: SealFile)
    requires Sorted(chain) && i < |chain| && Accepts(r, chain, file)
    requires chain[i].name < file.seal.content.lastFile
    ensures SealedScan(r, chain[i := File(chain[i].name, text)], file) == SealedScan(r, chain, file)
  {
    FindElsewhere(chain, i, text, file.seal.content.lastFile);
    assert AnchorLine(chain[i := File(chain[i].name, text)], file) == AnchorLine(chain, file);
    PendingElsewhere(chain, i, text, StartOf(r, chain, file));
  }

  lemma {:induction false} FindElsewhere(chain: seq<File>, i: nat, text: seq<Byte>, name: nat)
    requires i < |chain| && chain[i].name != name
    ensures Find(chain[i := File(chain[i].name, text)], name) == Find(chain, name)
    decreases i
  {
    if i > 0 {
      assert chain[i := File(chain[i].name, text)][1..] == chain[1..][i - 1 := File(chain[i].name, text)];
      FindElsewhere(chain[1..], i - 1, text, name);
    } else {
      assert chain[0 := File(chain[0].name, text)][1..] == chain[1..];
    }
  }

  lemma {:induction false} PendingElsewhere(chain: seq<File>, i: nat, text: seq<Byte>, from: Start)
    requires i < |chain| && from.Behind? && chain[i].name < from.file
    ensures Pending(chain[i := File(chain[i].name, text)], from) == Pending(chain, from)
    decreases i
  {
    if i > 0 {
      assert chain[i := File(chain[i].name, text)][1..] == chain[1..][i - 1 := File(chain[i].name, text)];
      PendingElsewhere(chain[1..], i - 1, text, from);
    } else {
      assert chain[0 := File(chain[0].name, text)][1..] == chain[1..];
    }
  }

  // ----- The scan itself -----

  class AuditDirectory {
    const reader: Reader
    var chain: seq<File>
    var seal: SealFile
    var linesRead: nat

    constructor (reader: Reader, chain: seq<File>, seal: SealFile)
      ensures this.reader == reader && this.chain == chain && this.seal == seal && linesRead == 0
    {
      this.reader, this.chain, this.seal, this.linesRead := reader, chain, seal, 0;
    }

    /** The inner `_scan`; None when an exception leaves it. */
    method CollectLiveEnablementNonces() returns (result: Option<set<string>>)
      modifies this`seal, this`linesRead
      ensures var outcome := SealedScan(reader, chain, old(seal));
              && result == (if outcome.Done? then Some(outcome.progress.seen) else None)
              && seal == SealAfter(reader, old(seal), outcome)
              && (outcome.Done? ==> linesRead == |Pending(chain, StartOf(reader, chain, old(seal)))|)
    {
      ghost var start := StartOf(reader, chain, seal);
      ghost var outcome := SealedScan(reader, chain, seal);
      var seen: set<string>, anchor: Option<Anchor> := {}, None;
      var fromFile, fromOffset, fromNumber := None, 0, 0;
      var line := AnchorLine(chain, seal);
      if Believes(reader, seal, line) {
        var c := seal.seal.content;
        seen := c.nonces;
        fromFile, fromNumber := Some(c.lastFile), c.lastLineCount;
        fromOffset := c.anchorOffset + |line.value|;
        anchor := Some(Anchor(c.lastFile, c.anchorOffset, c.lastLineCount, c.lastHash));
      }
      var lines := 0;
      for i := 0 to |chain|
        invariant start == if fromFile.Some? then Behind(fromFile.value, fromOffset, fromNumber) else Beginning
        invariant Fold(reader, Done(Progress(seen, anchor)), Pending(chain[i..], start)) == outcome
        invariant lines + |Pending(chain[i..], start)| == |Pending(chain, start)|
        invariant seal == old(seal)
      {
        var f := chain[i];
        assert chain[i..][1..] == chain[i + 1..];
        ghost var rest := Pending(chain[i + 1..], start);
        if fromFile.Some? && f.name < fromFile.value {
          assert FileItems(f, start) + rest == rest;
          continue;
        }
        var position, number := 0, 0;
        if fromFile.Some? && f.name == fromFile.value {
          position, number := fromOffset, fromNumber;
        }
        FoldConcat(reader, Done(Progress(seen, anchor)), FileItems(f, start), rest);
        var raised, count;
        raised, seen, anchor, count := ScanFile(f, position, number, seen, anchor);
        if raised {
          FoldOfRaised(reader, rest);
          return None;
        }
        lines := lines + count;
      }
      if anchor.Some? && anchor.value.hash.Truthy? {
        var c := ContentOf(Progress(seen, anchor));
        seal := Present(Seal(c, reader.checksum(c)));
      }
      linesRead := lines;
      result := Some(seen);
    }

    /** The lines of one file from an offset on, one `readline` at a time. */
    method ScanFile(f: File, from: nat, count: nat, seen0: set<string>, anchor0: Option<Anchor>)
      returns (raised: bool, seen: set<string>, anchor: Option<Anchor>, lines: nat)
      ensures var items := ItemsFrom(f.name, f.text, from, count);
              && Fold(reader, Done(Progress(seen0, anchor0)), items) ==
                 (if raised then Raised else Done(Progress(seen, anchor)))
              && (!raised ==> lines == |items|)
    {
      ghost var total := ItemsFrom(f.name, f.text, from, count);
      ghost var outcome := Fold(reader, Done(Progress(seen0, anchor0)), total);
      var position, number := from, count;
      raised, seen, anchor, lines := false, seen0, anchor0, 0;
      while position < |f.text|
        invariant !raised
        invariant Fold(reader, Done(Progress(seen, anchor)), ItemsFrom(f.name, f.text, position, number)) == outcome
        invariant lines + |ItemsFrom(f.name, f.text, position, number)| == |total|
      {
        var begin, raw := position, ReadLine(f.text, position);
        ghost var items := ItemsFrom(f.name, f.text, position, number);
        position, number, lines := position + |raw|, number + 1, lines + 1;
        assert items[0] == Item(f.name, begin, number, raw);
        assert items[1..] == ItemsFrom(f.name, f.text, position, number);
        ghost var next := Step(reader, Done(Progress(seen, anchor)), items[0]);
        assert Fold(reader, next, items[1..]) == outcome;
        match reader.parse(raw) {
          case Noise =>
          case Foreign =>
            FoldOfRaised(reader, items[1..]);
            raised := true;
            return;
          case Record(hash, nonce) =>
            if !hash.Missing? {
              anchor := Some(Anchor(f.name, begin, number, hash));
            }
            if nonce.Some? {
              seen := seen + {nonce.value};
            }
        }
        assert next == Done(Progress(seen, anchor));
      }
    }
  }
}
