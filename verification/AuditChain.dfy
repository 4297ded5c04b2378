/**
 The append-only audit chain as the nonce scan reads it: a directory of log files, each a
 sequence of bytes split into lines (core/hitl_gate.py:427-525).
 */
module AuditChain {
  import opened Options

  newtype Byte = x: int | 0 <= x < 256

  const NEWLINE: Byte := 10

  /** A log file; names are ordered as the directory listing sorts them. */
  datatype File = File(name: nat, text: seq<Byte>)

  ghost predicate Sorted(chain: seq<File>) {
    forall i, j | 0 <= i < j < |chain| :: chain[i].name < chain[j].name
  }

  /** One line as `readline` delivers it, with its offset and its 1-based number in the file. */
  datatype Item = Item(file: nat, start: nat, number: nat, bytes: seq<Byte>)

  predicate Terminated(bytes: seq<Byte>) {
    bytes != [] && bytes[|bytes| - 1] == NEWLINE
  }

  /** Where the line starting at off ends: behind its line break, or at the end of the file. */
  function LineEnd(text: seq<Byte>, off: nat): (e: nat)
    requires off < |text|
    ensures off < e <= |text|
    ensures forall i | off <= i < e - 1 :: text[i] != NEWLINE
    ensures text[e - 1] == NEWLINE || e == |text|
    decreases |text| - off
  {
    if text[off] == NEWLINE || off + 1 == |text| then off + 1 else LineEnd(text, off + 1)
  }

  /** `readline` at an offset; empty at or behind the end of the file. */
  function ReadLine(text: seq<Byte>, off: nat): seq<Byte> {
    if off < |text| then text[off..LineEnd(text, off)] else []
  }

  function ItemsFrom(file: nat, text: seq<Byte>, off: nat, number: nat): seq<Item>
    decreases |text| - off
  {
    if off >= |text| then []
    else
      var e := LineEnd(text, off);
      [Item(file, off, number + 1, text[off..e])] + ItemsFrom(file, text, e, number + 1)
  }

  function Items(chain: seq<File>): seq<Item> {
    if chain == [] then [] else ItemsFrom(chain[0].name, chain[0].text, 0, 0) + Items(chain[1..])
  }

  // ----- Reading on behind a line -----

  /** Where a scan begins: at the very start, or behind a line of one file. */
  datatype Start = Beginning | Behind(file: nat, offset: nat, number: nat)

  function FileItems(f: File, from: Start): seq<Item> {
    if from.Beginning? || from.file < f.name then ItemsFrom(f.name, f.text, 0, 0)
    else if f.name == from.file then ItemsFrom(f.name, f.text, from.offset, from.number)
    else []
  }

  /** The lines a scan from the given start still has to read. */
  function Pending(chain: seq<File>, from: Start): seq<Item> {
    if chain == [] then [] else FileItems(chain[0], from) + Pending(chain[1..], from)
  }

  lemma {:induction false} PendingFromBeginning(chain: seq<File>)
    ensures Pending(chain, Beginning) == Items(chain)
  {
    if chain != [] {
      PendingFromBeginning(chain[1..]);
    }
  }

  lemma {:induction false} PendingOfLaterFiles(chain: seq<File>, from: Start)
    requires from.Behind? && forall f | f in chain :: from.file < f.name
    ensures Pending(chain, from) == Items(chain)
  {
    if chain != [] {
      PendingOfLaterFiles(chain[1..], from);
    }
  }

  lemma {:induction false} ItemsOfFile(file: nat, text: seq<Byte>, off: nat, number: nat, k: nat)
    requires k < |ItemsFrom(file, text, off, number)|
    ensures var items := ItemsFrom(file, text, off, number);
            && items[k].file == file
            && items[k].start < |text|
            && items[k].bytes == ReadLine(text, items[k].start)
            && items[k + 1..] == ItemsFrom(file, text, LineEnd(text, items[k].start), items[k].number)
    decreases k
  {
    var items, e := ItemsFrom(file, text, off, number), LineEnd(text, off);
    if k == 0 {
      assert items[1..] == ItemsFrom(file, text, e, number + 1);
    } else {
      ItemsOfFile(file, text, e, number + 1, k - 1);
      assert items[k + 1..] == ItemsFrom(file, text, e, number + 1)[k..];
    }
  }

  function Find(chain: seq<File>, name: nat): (f: Option<File>)
    ensures f.Some? ==> f.value in chain && f.value.name == name
    ensures f.None? ==> forall g | g in chain :: g.name != name
  {
    if chain == [] then None
    else if chain[0].name == name then Some(chain[0])
    else Find(chain[1..], name)
  }

  /** What `open`, `seek` and `readline` yield; None when the file is missing or the offset negative. */
  function LineAt(chain: seq<File>, file: nat, off: int): (line: Option<seq<Byte>>)
    ensures line.Some? ==> off >= 0
  {
    var f := Find(chain, file);
    if f.None? || off < 0 then None else Some(ReadLine(f.value.text, off))
  }

  /** The line is found where it says it is, and reading on behind it reaches exactly the rest. */
  ghost predicate ReadsOn(chain: seq<File>, item: Item, rest: seq<Item>) {
    && LineAt(chain, item.file, item.start) == Some(item.bytes)
    && Pending(chain, Behind(item.file, item.start + |item.bytes|, item.number)) == rest
  }

  lemma LineReachesItsEnd(text: seq<Byte>, off: nat)
    requires off < |text|
    ensures off + |ReadLine(text, off)| == LineEnd(text, off)
  {
  }

  lemma ItemsBehindLine(f: File, end: nat, number: nat)
    ensures FileItems(f, Behind(f.name, end, number)) == ItemsFrom(f.name, f.text, end, number)
  {
  }

  /** Within one file: the line's bytes are read at its offset, and behind them come the later lines. */
  lemma SeekInFile(f: File, head: seq<Item>, k: nat)
    requires head == ItemsFrom(f.name, f.text, 0, 0) && k < |head|
    ensures head[k].file == f.name && head[k].bytes == ReadLine(f.text, head[k].start)
    ensures FileItems(f, Behind(f.name, head[k].start + |head[k].bytes|, head[k].number)) == head[k + 1..]
  {
    ItemsOfFile(f.name, f.text, 0, 0, k);
    LineReachesItsEnd(f.text, head[k].start);
    ItemsBehindLine(f, LineEnd(f.text, head[k].start), head[k].number);
  }

  lemma LaterFilesSortBehind(chain: seq<File>)
    requires Sorted(chain) && chain != []
    ensures Sorted(chain[1..]) && forall f | f in chain[1..] :: chain[0].name < f.name
  {
  }

  lemma ReadOnInFirstFile(chain: seq<File>, head: seq<Item>, k: nat)
    requires Sorted(chain) && chain != [] && k < |head|
    requires head == ItemsFrom(chain[0].name, chain[0].text, 0, 0)
    ensures ReadsOn(chain, head[k], head[k + 1..] + Items(chain[1..]))
  {
    var item := head[k];
    SeekInFile(chain[0], head, k);
    LaterFilesSortBehind(chain);
    LineAtHead(chain, item.start);
    PendingBehindHead(chain, Behind(chain[0].name, item.start + |item.bytes|, item.number), head[k + 1..]);
  }

  lemma LineAtHead(chain: seq<File>, off: nat)
    requires chain != []
    ensures LineAt(chain, chain[0].name, off) == Some(ReadLine(chain[0].text, off))
  {
  }

  lemma PendingBehindHead(chain: seq<File>, from: Start, rest: seq<Item>)
    requires chain != [] && from.Behind? && (forall f | f in chain[1..] :: from.file < f.name)
    requires FileItems(chain[0], from) == rest
    ensures Pending(chain, from) == rest + Items(chain[1..])
  {
    PendingOfLaterFiles(chain[1..], from);
  }

  lemma ReadOnInLaterFile(chain: seq<File>, item: Item, rest: seq<Item>)
    requires Sorted(chain) && chain != [] && ReadsOn(chain[1..], item, rest)
    ensures ReadsOn(chain, item, rest)
  {
    var f := Find(chain[1..], item.file).value;
    assert f in chain[1..];
    assert chain[0].name < item.file;
  }

  /** The k-th line is found in its file at its offset, and reading on behind it yields the rest. */
  lemma {:induction false} ReadOnBehind(chain: seq<File>, k: nat)
    requires Sorted(chain) && k < |Items(chain)|
    ensures ReadsOn(chain, Items(chain)[k], Items(chain)[k + 1..])
    decreases |chain|
  {
    var head, rest := ItemsFrom(chain[0].name, chain[0].text, 0, 0), chain[1..];
    IndexInConcat(head, Items(rest), k);
    if k < |head| {
      ReadOnInFirstFile(chain, head, k);
    } else {
      LaterFilesSortBehind(chain);
      ReadOnBehind(rest, k - |head|);
      ReadOnInLaterFile(chain, Items(rest)[k - |head|], Items(rest)[k - |head| + 1..]);
    }
  }

  lemma IndexInConcat(a: seq<Item>, b: seq<Item>, k: nat)
    requires k < |a + b|
    ensures k < |a| ==> (a + b)[k] == a[k] && (a + b)[k + 1..] == a[k + 1..] + b
    ensures k >= |a| ==> (a + b)[k] == b[k - |a|] && (a + b)[k + 1..] == b[k - |a| + 1..]
  {
  }

  // ----- Growth -----

  /** The file that is still written to: the last one. */
  function OpenFile(chain: seq<File>): Option<nat> {
    if chain == [] then None else Some(chain[|chain| - 1].name)
  }

  /** No write can change the line any more: it has its line break, or its file is not the open one. */
  predicate Closed(item: Item, open: Option<nat>) {
    open != Some(item.file) || Terminated(item.bytes)
  }

  /**
   What appending does to the lines read: everything but the last line stays, and the last
   line stays too once it is closed.
   */
  ghost predicate Grown(a: seq<Item>, b: seq<Item>, open: Option<nat>) {
    a != [] ==>
      var n := |a| - 1;
      && n < |b|
      && a[..n] == b[..n]
      && (a[n].file, a[n].start, a[n].number) == (b[n].file, b[n].start, b[n].number)
      && a[n].bytes <= b[n].bytes
      && (Closed(a[n], open) ==> a[n] == b[n])
  }

  /** `Append` writes to the last file, `Create` adds a file that sorts behind it. */
  function Append(chain: seq<File>, bytes: seq<Byte>): seq<File>
    requires chain != []
  {
    var n := |chain| - 1;
    chain[..n] + [File(chain[n].name, chain[n].text + bytes)]
  }

  function Create(chain: seq<File>, name: nat, bytes: seq<Byte>): seq<File> {
    chain + [File(name, bytes)]
  }

  lemma {:induction false} LineEndGrows(text: seq<Byte>, x: seq<Byte>, off: nat)
    requires off < |text|
    ensures LineEnd(text, off) <= LineEnd(text + x, off)
    ensures text[LineEnd(text, off) - 1] == NEWLINE ==> LineEnd(text + x, off) == LineEnd(text, off)
    decreases |text| - off
  {
    if text[off] != NEWLINE && off + 1 < |text| {
      LineEndGrows(text, x, off + 1);
    }
  }

  lemma SliceOfGrown(text: seq<Byte>, x: seq<Byte>, off: nat, end: nat)
    requires off <= |text| <= end <= |text + x|
    ensures (text + x)[off..end][..|text| - off] == text[off..]
    ensures text[off..|text|] == text[off..]
  {
  }

  lemma {:induction false} FileGrows(file: nat, text: seq<Byte>, x: seq<Byte>, off: nat, number: nat)
    ensures Grown(ItemsFrom(file, text, off, number), ItemsFrom(file, text + x, off, number), Some(file))
    decreases |text| - off
  {
    if off < |text| {
      LineEndGrows(text, x, off);
      var e := LineEnd(text, off);
      var a, b := ItemsFrom(file, text, off, number), ItemsFrom(file, text + x, off, number);
      assert text[off..e] == (text + x)[off..e];
      if e == |text| {
        assert ItemsFrom(file, text, e, number + 1) == [];
        assert a == [Item(file, off, number + 1, text[off..e])] + [];
        SliceOfGrown(text, x, off, LineEnd(text + x, off));
      } else {
        FileGrows(file, text, x, e, number + 1);
        var a', b' := ItemsFrom(file, text, e, number + 1), ItemsFrom(file, text + x, e, number + 1);
        assert a == [a[0]] + a' && b == [a[0]] + b' && a' != [];
        assert a[..|a| - 1] == [a[0]] + a'[..|a'| - 1];
        assert b[..|a| - 1] == [a[0]] + b'[..|a'| - 1];
      }
    }
  }

  lemma GrownBehind(prefix: seq<Item>, a: seq<Item>, b: seq<Item>, open: Option<nat>)
    requires Grown(a, b, open) && a != []
    ensures Grown(prefix + a, prefix + b, open)
  {
    var n := |prefix + a| - 1;
    assert (prefix + a)[..n] == prefix + a[..|a| - 1];
    assert (prefix + b)[..n] == prefix + b[..|a| - 1];
  }

  lemma GrownByMore(a: seq<Item>, more: seq<Item>, open: Option<nat>)
    ensures Grown(a, a + more, open)
  {
    if a != [] {
      assert (a + more)[..|a| - 1] == a[..|a| - 1];
    }
  }

  lemma {:induction false} ItemsOfConcat(a: seq<File>, b: seq<File>)
    ensures Items(a + b) == Items(a) + Items(b)
  {
    if a == [] {
      assert a + b == b;
    } else {
      assert (a + b)[1..] == a[1..] + b;
      ItemsOfConcat(a[1..], b);
    }
  }

  lemma ItemsOfOne(f: File)
    ensures Items([f]) == ItemsFrom(f.name, f.text, 0, 0)
  {
    assert Items([f][1..]) == [];
  }

  /** The lines before the last file, all of other files, and the last file's lines after them. */
  lemma ItemsOfAppended(chain: seq<File>, bytes: seq<Byte>)
    requires chain != [] && Sorted(chain)
    ensures var n := |chain| - 1;
            var f, before := chain[n], Items(chain[..n]);
            && Items(chain) == before + ItemsFrom(f.name, f.text, 0, 0)
            && Items(Append(chain, bytes)) == before + ItemsFrom(f.name, f.text + bytes, 0, 0)
            && forall item | item in before :: item.file != f.name
  {
    var n := |chain| - 1;
    var f := chain[n];
    assert chain == chain[..n] + [f];
    ItemsOfConcat(chain[..n], [f]);
    ItemsOfConcat(chain[..n], [File(f.name, f.text + bytes)]);
    ItemsOfOne(f);
    ItemsOfOne(File(f.name, f.text + bytes));
    forall item | item in Items(chain[..n]) ensures item.file != f.name {
      ItemsNameTheirFile(chain[..n], item);
    }
  }

  lemma AppendGrows(chain: seq<File>, bytes: seq<Byte>)
    requires chain != [] && Sorted(chain)
    ensures Sorted(Append(chain, bytes)) && OpenFile(Append(chain, bytes)) == OpenFile(chain)
    ensures Grown(Items(chain), Items(Append(chain, bytes)), OpenFile(chain))
  {
    var n := |chain| - 1;
    var f, before := chain[n], Items(chain[..n]);
    ItemsOfAppended(chain, bytes);
    FileGrows(f.name, f.text, bytes, 0, 0);
    var a, b := ItemsFrom(f.name, f.text, 0, 0), ItemsFrom(f.name, f.text + bytes, 0, 0);
    if a == [] {
      GrownByMore(before, b, OpenFile(chain));
      assert before + a == before;
    } else {
      GrownBehind(before, a, b, OpenFile(chain));
    }
  }

  lemma LastLineEnds(file: nat, text: seq<Byte>, off: nat, number: nat)
    requires off < |text|
    ensures var a := ItemsFrom(file, text, off, number);
            a != [] && (Terminated(a[|a| - 1].bytes) <==> text[|text| - 1] == NEWLINE)
    decreases |text| - off
  {
    var e := LineEnd(text, off);
    if e < |text| {
      LastLineEnds(file, text, e, number + 1);
      var rest := ItemsFrom(file, text, e, number + 1);
      assert ItemsFrom(file, text, off, number) == [Item(file, off, number + 1, text[off..e])] + rest;
    }
  }

  /** Bytes without a line break behind an open last line only make that line longer. */
  lemma {:induction false} LastLineExtends(file: nat, text: seq<Byte>, x: seq<Byte>, off: nat, number: nat)
    requires off < |text| && text[|text| - 1] != NEWLINE && NEWLINE !in x
    ensures var a, b := ItemsFrom(file, text, off, number), ItemsFrom(file, text + x, off, number);
            |a| == |b| > 0 && b[|b| - 1].bytes == a[|a| - 1].bytes + x
    decreases |text| - off
  {
    LineEndGrows(text, x, off);
    var e := LineEnd(text, off);
    if e < |text| {
      LastLineExtends(file, text, x, e, number + 1);
      var a', b' := ItemsFrom(file, text, e, number + 1), ItemsFrom(file, text + x, e, number + 1);
      assert ItemsFrom(file, text, off, number) == [Item(file, off, number + 1, text[off..e])] + a';
      assert ItemsFrom(file, text + x, off, number) == [Item(file, off, number + 1, (text + x)[off..e])] + b';
    } else {
      WholeTailIsOneLine(text, x, off);
    }
  }

  lemma WholeTailIsOneLine(text: seq<Byte>, x: seq<Byte>, off: nat)
    requires off < |text| && LineEnd(text, off) == |text| && text[|text| - 1] != NEWLINE && NEWLINE !in x
    ensures LineEnd(text + x, off) == |text + x| && (text + x)[off..] == text[off..] + x
  {
    var e := LineEnd(text + x, off);
    forall i | off <= i < |text + x| ensures (text + x)[i] != NEWLINE {
      assert i >= |text| ==> (text + x)[i] == x[i - |text|] && x[i - |text|] in x;
    }
  }

  lemma LastFileExtends(f: File, x: seq<Byte>)
    requires NEWLINE !in x
    requires var a := ItemsFrom(f.name, f.text, 0, 0); a != [] && !Terminated(a[|a| - 1].bytes)
    ensures var a, b := ItemsFrom(f.name, f.text, 0, 0), ItemsFrom(f.name, f.text + x, 0, 0);
            |a| == |b| > 0 && b[|b| - 1].bytes == a[|a| - 1].bytes + x
  {
    LastLineEnds(f.name, f.text, 0, 0);
    LastLineExtends(f.name, f.text, x, 0, 0);
  }

  lemma LastOfConcat(before: seq<Item>, a: seq<Item>)
    ensures a != [] ==> (before + a)[|before + a| - 1] == a[|a| - 1]
    ensures a == [] && before != [] ==> (before + a)[|before + a| - 1] in before
  {
  }

  lemma AppendExtendsOpenLine(chain: seq<File>, x: seq<Byte>)
    requires Sorted(chain) && chain != [] && NEWLINE !in x
    requires Items(chain) != [] && !Closed(Items(chain)[|Items(chain)| - 1], OpenFile(chain))
    ensures var was, now := Items(chain), Items(Append(chain, x));
            |now| == |was| && now[|was| - 1].bytes == was[|was| - 1].bytes + x
  {
    var n := |chain| - 1;
    var f, before := chain[n], Items(chain[..n]);
    ItemsOfAppended(chain, x);
    var a, b := ItemsFrom(f.name, f.text, 0, 0), ItemsFrom(f.name, f.text + x, 0, 0);
    LastOfConcat(before, a);
    LastOfConcat(before, b);
    LastFileExtends(f, x);
  }

  lemma CreateGrows(chain: seq<File>, name: nat, bytes: seq<Byte>)
    requires Sorted(chain) && forall f | f in chain :: f.name < name
    ensures Sorted(Create(chain, name, bytes))
    ensures Grown(Items(chain), Items(Create(chain, name, bytes)), OpenFile(chain))
    ensures forall item | item in Items(chain) :: Closed(item, OpenFile(Create(chain, name, bytes)))
  {
    ItemsOfConcat(chain, [File(name, bytes)]);
    GrownByMore(Items(chain), Items([File(name, bytes)]), OpenFile(chain));
    forall item | item in Items(chain) ensures Closed(item, Some(name)) {
      ItemsNameTheirFile(chain, item);
    }
  }

  lemma {:induction false} ItemsNameTheirFile(chain: seq<File>, item: Item)
    requires item in Items(chain)
    ensures exists f :: f in chain && f.name == item.file
  {
    var head := ItemsFrom(chain[0].name, chain[0].text, 0, 0);
    if item in head {
      FileOfItems(chain[0].name, chain[0].text, 0, 0, item);
      assert chain[0] in chain;
    } else {
      ItemsNameTheirFile(chain[1..], item);
    }
  }

  lemma {:induction false} FileOfItems(file: nat, text: seq<Byte>, off: nat, number: nat, item: Item)
    requires item in ItemsFrom(file, text, off, number)
    ensures item.file == file
    decreases |text| - off
  {
    var e := LineEnd(text, off);
    if item != Item(file, off, number + 1, text[off..e]) {
      FileOfItems(file, text, e, number + 1, item);
    }
  }
}
