module HuffmanPartial {
  // What the decoder of coursedesign/zip/program/huffman.c makes of files that the encoder did not write: any
  // code table and any data, and archives that are cut off or continued.

  import opened BitBytes
  import opened MergeTree
  import opened HuffmanCode
  import opened HuffmanTree
  import opened HuffmanFile
  import opened HuffmanTrie

  // ---- adding any code to any trie ----

  /** A shorter code already ends on the way. */
  predicate Barred(tr: Trie, code: Bits, i: nat) {
    exists k :: i <= k < |code| && code[..k] in tr.labels
  }

  // Adding a code fails exactly if a leaf is on its way. Otherwise it makes the nodes on the way that are missing,
  // and labels its end, unless there was a node already: then the symbol is dropped.
  lemma {:induction false} InsertIs(tr: Trie, code: Bits, i: nat, s: Byte)
    requires i <= |code|
    ensures InsertFrom(tr, code, i, s) == None <==> Barred(tr, code, i)
    ensures InsertFrom(tr, code, i, s) != None ==>
      forall p :: p in InsertFrom(tr, code, i, s).value.paths <==> p in tr.paths || (p <= code && |p| > i)
    ensures InsertFrom(tr, code, i, s) != None ==>
      (InsertFrom(tr, code, i, s).value.labels ==
        if i == |code| || code in tr.paths then tr.labels else tr.labels[code := s])
    decreases |code| - i
  {
    if i < |code| && code[..i] !in tr.labels {
      var more := Grow(tr, code[..i + 1], i + 1 == |code|, s);
      InsertIs(more, code, i + 1, s);
      assert i + 1 == |code| ==> code[..i + 1] == code;
      forall p | p <= code && |p| == i + 1 ensures p == code[..i + 1] {
      }
      assert Barred(tr, code, i) <==> Barred(more, code, i + 1);
    }
  }

  // ---- walking through any trie ----

  predicate Inner(tr: Trie, p: Bits) {
    p in tr.paths && p !in tr.labels
  }

  /** All steps of p, and in the end p itself, lead to inner nodes. */
  predicate Way(tr: Trie, p: Bits) {
    forall k :: 0 < k <= |p| ==> Inner(tr, p[..k])
  }

  /** p leads to a leaf, and over inner nodes only. */
  predicate IsWord(tr: Trie, p: Bits) {
    p != [] && p in tr.paths && p in tr.labels && forall k :: 0 < k < |p| ==> Inner(tr, p[..k])
  }

  /** p leads over inner nodes to a place without a node. */
  predicate LeadsOff(tr: Trie, p: Bits) {
    p != [] && p !in tr.paths && forall k :: 0 < k < |p| ==> Inner(tr, p[..k])
  }

  lemma {:induction false} FeedFirst(tr: Trie, w: Walk, p: Bits, i: nat, more: Bits)
    requires i < |p|
    ensures p[..i] + [p[i]] == p[..i + 1]
    ensures FeedAll(tr, w, p[i..] + more) == FeedAll(tr, Feed(tr, w, p[i]), p[i + 1..] + more)
  {
    assert (p[i..] + more)[0] == p[i] && (p[i..] + more)[1..] == p[i + 1..] + more;
  }

  lemma {:induction false} WalkWord(tr: Trie, out: seq<Byte>, n: nat, p: Bits, i: nat, more: Bits)
    requires IsWord(tr, p) && i < |p|
    ensures FeedAll(tr, Walk(p[..i], out, n + 1, false), p[i..] + more)
         == FeedAll(tr, Walk([], out + [tr.labels[p]], n, false), more)
    decreases |p| - i
  {
    hide FeedAll;
    FeedFirst(tr, Walk(p[..i], out, n + 1, false), p, i, more);
    if i + 1 < |p| {
      assert Inner(tr, p[..i + 1]);
      WalkWord(tr, out, n, p, i + 1, more);
    } else {
      assert p[..i + 1] == p && p[i + 1..] + more == more;
    }
  }

  lemma {:induction false} WalkWay(tr: Trie, out: seq<Byte>, n: nat, p: Bits, i: nat)
    requires Way(tr, p) && i <= |p|
    ensures FeedAll(tr, Walk(p[..i], out, n + 1, false), p[i..]) == Walk(p, out, n + 1, false)
    decreases |p| - i
  {
    if i < |p| {
      FeedFirst(tr, Walk(p[..i], out, n + 1, false), p, i, []);
      assert p[i..] + [] == p[i..] && p[i + 1..] + [] == p[i + 1..];
      assert Inner(tr, p[..i + 1]);
      WalkWay(tr, out, n, p, i + 1);
    } else {
      assert p[..i] == p;
    }
  }

  lemma {:induction false} WalkOff(tr: Trie, out: seq<Byte>, n: nat, p: Bits, i: nat, more: Bits)
    requires LeadsOff(tr, p) && i < |p|
    ensures FeedAll(tr, Walk(p[..i], out, n + 1, false), p[i..] + more).crashed
    decreases |p| - i
  {
    hide FeedAll;
    FeedFirst(tr, Walk(p[..i], out, n + 1, false), p, i, more);
    if i + 1 < |p| {
      assert Inner(tr, p[..i + 1]);
      WalkOff(tr, out, n, p, i + 1, more);
    } else {
      assert p[..i + 1] == p;
      FeedNothing(tr, Walk(p[..i], out, n + 1, true), p[i + 1..] + more);
    }
  }

  ghost predicate AllWords(tr: Trie, words: seq<Bits>) {
    forall i :: 0 <= i < |words| ==> IsWord(tr, words[i])
  }

  function Strung(words: seq<Bits>): Bits {
    if words == [] then [] else words[0] + Strung(words[1..])
  }

  /** The symbols that the words lead to. */
  function Spelled(tr: Trie, words: seq<Bits>): (r: seq<Byte>)
    requires forall i :: 0 <= i < |words| ==> words[i] in tr.labels
    ensures |r| == |words|
  {
    seq(|words|, i requires 0 <= i < |words| => tr.labels[words[i]])
  }

  lemma {:induction false} WalkWords(tr: Trie, out: seq<Byte>, words: seq<Bits>, spare: nat, more: Bits)
    requires AllWords(tr, words)
    ensures FeedAll(tr, Walk([], out, |words| + spare, false), Strung(words) + more)
         == FeedAll(tr, Walk([], out + Spelled(tr, words), spare, false), more)
    decreases |words|
  {
    hide FeedAll;
    if words == [] {
      assert out + Spelled(tr, words) == out && Strung(words) + more == more;
    } else {
      var p, rest := words[0], words[1..];
      assert IsWord(tr, p) && AllWords(tr, rest);
      WalkWord(tr, out, |rest| + spare, p, 0, Strung(rest) + more);
      assert p[0..] + (Strung(rest) + more) == Strung(words) + more && p[..0] == [];
      WalkWords(tr, out + [tr.labels[p]], rest, spare, more);
      assert out + [tr.labels[p]] + Spelled(tr, rest) == out + Spelled(tr, words);
    }
  }

  // Data that begins with words decodes to their symbols, up to the number that the header asks for. If that is
  // not reached when the file ends within a word, what is there is the result; if the next bits lead off the trie,
  // the program crashes.
  lemma {:induction false} DecodesWords(file: seq<Byte>, tr: Trie, rest: seq<Byte>, words: seq<Bits>, tail: Bits)
    requires |file| >= 8 && ReadEntries(file[8..], Host32(file[..4]), EMPTY) == TableRead(tr, rest)
    requires AllWords(tr, words) && Unpack(rest) == Strung(words) + tail && |words| <= Host32(file[4..8])
    ensures |words| == Host32(file[4..8]) ==> DecodeBytes(file) == Text(Spelled(tr, words))
    ensures |words| < Host32(file[4..8]) && Way(tr, tail) ==> DecodeBytes(file) == Text(Spelled(tr, words))
    ensures |words| < Host32(file[4..8]) && (exists k :: 0 < k <= |tail| && LeadsOff(tr, tail[..k])) ==>
      DecodeBytes(file) == Crash
  {
    hide ReadEntries, FeedAll, Unpack, Host32, LeadsOff, Way;
    var spare := Host32(file[4..8]) - |words|;
    WalkWords(tr, [], words, spare, tail);
    var out := [] + Spelled(tr, words);
    assert out == Spelled(tr, words);
    if spare == 0 {
      FeedNothing(tr, Walk([], out, 0, false), tail);
    } else if Way(tr, tail) {
      WalkWay(tr, out, spare - 1, tail, 0);
      assert tail[..0] == [] && tail[0..] == tail;
    }
    if k :| spare > 0 && 0 < k <= |tail| && LeadsOff(tr, tail[..k]) {
      WalkOff(tr, out, spare - 1, tail[..k], 0, tail[k..]);
      assert tail[..k][..0] == [] && tail[..k][0..] + tail[k..] == tail;
    }
  }

  /** Any data divides in one of these ways. */
  lemma {:induction false} Divides(tr: Trie, bits: Bits, n: nat) returns (words: seq<Bits>, tail: Bits)
    requires [] in tr.paths && forall p :: p in tr.labels ==> p in tr.paths
    ensures AllWords(tr, words) && bits == Strung(words) + tail && |words| <= n
    ensures |words| == n || Way(tr, tail) || exists k :: 0 < k <= |tail| && LeadsOff(tr, tail[..k])
    decreases |bits|
  {
    words, tail := [], bits;
    if n > 0 && !Way(tr, bits) {
      var k := FirstStop(tr, bits, 0);
      if IsWord(tr, bits[..k]) {
        words, tail := Divides(tr, bits[k..], n - 1);
        assert ([bits[..k]] + words)[1..] == words;
        words := [bits[..k]] + words;
        assert bits == bits[..k] + bits[k..];
      }
    }
  }

  lemma {:induction false} FirstStop(tr: Trie, bits: Bits, i: nat) returns (k: nat)
    requires i <= |bits| && !Way(tr, bits) && forall j :: 0 < j <= i ==> Inner(tr, bits[..j])
    ensures 0 < k <= |bits| && (IsWord(tr, bits[..k]) || LeadsOff(tr, bits[..k]))
    decreases |bits| - i
  {
    if i < |bits| && Inner(tr, bits[..i + 1]) {
      k := FirstStop(tr, bits, i + 1);
    } else {
      k := i + 1;
      assert forall j :: 0 < j < k ==> bits[..k][..j] == bits[..j];
    }
  }

  // ---- archives that go on ----

  /** Bytes behind an archive do not matter, unless it is that of a single byte value: then they crash the program. */
  lemma Continued(file: seq<Byte>, text: seq<Byte>, t: CodeTree, es: seq<Entry>, more: seq<Byte>)
    requires ArchiveOf(file, text, t, es) && more != []
    ensures t.Node? ==> DecodeBytes(file + more) == Text(Sized(text))
    ensures t.Leaf? ==> DecodeBytes(file + more) == if |text| % TWO32 == 0 then Text([]) else Crash
  {
    hide *;
    SizeFits(text);
    UseArchive(file, text, t, es);
    var bits, n := TextBits(t, text), |text| % TWO32;
    var rest := Pack(bits) + more;
    var head := Net32(|es|) + Net32(n) + TableBytes(es);
    assert head + Pack(bits) + more == head + rest;
    var tr;
    if t.Node? {
      tr := TableOf(es, t, rest);
      DecodeRead(file + more, es, n, rest, tr);
      UnpackMore(Pack(bits), more);
      TextBitsSplit(t, text, n);
      PackedBits(bits);
      var past := Unpack(rest)[|TextBits(t, text[..n])|..];
      assert Unpack(rest) == TextBits(t, text[..n]) + past;
      FeedText(tr, t, [], text[..n], 0, past);
      FeedNothing(tr, Walk([], [] + text[..n], 0, false), past);
      assert [] + text[..n] == text[..n];
      IsSized(text, n);
    } else {
      LeafBits(t, text);
      LeafTable(es, t, rest);
      DecodeRead(file + more, es, n, rest, EMPTY);
      NoWay(rest, n);
    }
  }

  /** The trie that the table of t reads as. */
  lemma TableOf(es: seq<Entry>, t: CodeTree, rest: seq<Byte>) returns (tr: Trie)
    requires Distinct(t) && t.Node? && Height(t) <= 255 && Lists(es, t)
    ensures ReadEntries(TableBytes(es) + rest, |es|, EMPTY) == TableRead(tr, rest) && Holding(tr, t, Symbols(t))
  {
    hide *;
    assert es[0..] == es;
    EmptyTrie(t);
    assert SymbolsIn(es[..0]) == {} by { NoSymbols(es[..0]); }
    tr := ReadTable(es, t, 0, EMPTY, rest);
  }

  lemma LeafTable(es: seq<Entry>, t: CodeTree, rest: seq<Byte>)
    requires Lists(es, t) && t.Leaf?
    ensures ReadEntries(TableBytes(es) + rest, |es|, EMPTY) == TableRead(EMPTY, rest)
  {
    hide *;
    OneEntry(es, t);
    TableTail(es, 0, rest);
    NoTableLeft(es);
    assert [] + rest == rest;
    ReadOneEntry(es[0], rest, 0, EMPTY);
    NoCode(es[0].0);
    NothingToRead(EMPTY, rest);
  }

  lemma {:induction false} UnpackMore(x: seq<Byte>, y: seq<Byte>)
    ensures Unpack(x) <= Unpack(x + y) && (y != [] ==> |Unpack(x + y)| > 0)
  {
    hide BitOf;
  }

  lemma {:induction false} NoWay(rest: seq<Byte>, n: nat)
    requires rest != []
    ensures var w := FeedAll(EMPTY, Walk([], [], n, false), Unpack(rest));
      w.crashed == (n > 0) && w.text == []
  {
    hide Unpack;
    var bits := Unpack(rest);
    if n == 0 {
      FeedNothing(EMPTY, Walk([], [], 0, false), bits);
    } else {
      FeedNothing(EMPTY, Walk([], [], n, true), bits[1..]);
    }
  }

  // ---- archives that are cut off ----

  lemma ParseCut(e: Entry, m: nat)
    requires |e.1| <= 255 && m < |EntryBytes(e)|
    ensures ParseEntry(EntryBytes(e)[..m]) == None
  {
    hide ByteFrom, Index, Pack;
    NumberOfByte(|e.1|);
    if m >= 2 {
      assert EntryBytes(e)[..m][1] == EntryBytes(e)[1];
    }
  }

  /** A table that is not complete is not read to its end. */
  lemma {:induction false} ReadCut(es: seq<Entry>, t: CodeTree, k: nat, tr: Trie, m: nat)
    requires Distinct(t) && Height(t) <= 255 && Lists(es, t) && k <= |es| && m < |TableBytes(es[k..])|
    requires t.Node? ==> Holding(tr, t, SymbolsIn(es[..k]))
    ensures ReadEntries(TableBytes(es[k..])[..m], |es| - k, tr) == TableEof
    decreases |es| - k
  {
    hide *;
    var bytes := TableBytes(es[k..]);
    SomeTable(es, k);
    var e := es[k];
    var size := |EntryBytes(e)|;
    TableTail(es, k, []);
    assert bytes == EntryBytes(e) + TableBytes(es[k + 1..]) by {
      assert bytes + [] == bytes && TableBytes(es[k + 1..]) + [] == TableBytes(es[k + 1..]);
    }
    NotYetListed(es, t, k);
    CodeFits(t, e.0);
    if m < size {
      ParseCut(e, m);
      assert bytes[..m] == EntryBytes(e)[..m];
      ParseFails(bytes[..m], |es| - k, tr);
    } else {
      var more := TableBytes(es[k + 1..])[..m - size];
      assert bytes[..m] == EntryBytes(e) + more;
      ReadOneEntry(e, more, |es| - k - 1, tr);
      if t.Node? {
        CodeNotEmpty(t, e.0);
        FirstStep(tr, t, SymbolsIn(es[..k]), e.0);
        var next := InsertHolding(tr, t, SymbolsIn(es[..k]), e.0, 0);
        ReadCut(es, t, k + 1, next, m - size);
      } else {
        OneEntry(es, t);
        NoTableLeft(es);
      }
    }
  }

  lemma {:induction false} SomeTable(es: seq<Entry>, k: nat)
    requires k <= |es| && |TableBytes(es[k..])| > 0
    ensures k < |es|
  {
    hide EntryBytes;
  }

  lemma {:induction false} CodeFits(t: CodeTree, s: Byte)
    requires s in Symbols(t) && Height(t) <= 255
    ensures |CodeOf(t, s)| <= 255
  {
  }

  lemma {:induction false} ParseFails(bytes: seq<Byte>, count: nat, tr: Trie)
    requires ParseEntry(bytes) == None && count > 0
    ensures ReadEntries(bytes, count, tr) == TableEof
  {
    hide ParseEntry;
  }

  /** n bytes of the text, out of size, are as many as have their codes in so many bits. */
  ghost predicate IsLongest(t: CodeTree, text: seq<Byte>, size: nat, room: nat, n: nat) {
    n <= size <= |text| && (forall i :: 0 <= i < |text| ==> text[i] in Symbols(t)) &&
    |TextBits(t, text[..n])| <= room && (n < size ==> |TextBits(t, text[..n + 1])| > room)
  }

  lemma {:induction false} LongestText(t: CodeTree, text: seq<Byte>, size: nat, room: nat) returns (n: nat)
    requires size <= |text| && forall i :: 0 <= i < |text| ==> text[i] in Symbols(t)
    ensures IsLongest(t, text, size, room, n)
  {
    hide TextBits;
    n := size;
    while n > 0 && |TextBits(t, text[..n])| > room
      invariant n <= size && (n < size ==> |TextBits(t, text[..n + 1])| > room)
    {
      n := n - 1;
    }
    if n == 0 {
      NoBits(t);
      assert text[..0] == [];
    }
  }

  lemma UseLongest(t: CodeTree, text: seq<Byte>, size: nat, room: nat, n: nat)
    requires IsLongest(t, text, size, room, n)
    ensures n <= size <= |text| && |TextBits(t, text[..n])| <= room && TextBits(t, text[..n]) <= TextBits(t, text)
    ensures n < size ==> |TextBits(t, text[..n + 1])| > room && TextBits(t, text[..n + 1]) <= TextBits(t, text)
  {
    hide TextBits, Symbols;
    TextBitsSplit(t, text, n);
    if n < size {
      TextBitsSplit(t, text, n + 1);
    }
  }

  /** From a part of the data come exactly the bytes whose codes are complete. */
  lemma {:induction false} FeedPart(tr: Trie, t: CodeTree, text: seq<Byte>, size: nat, bits: Bits, n: nat)
    requires Distinct(t) && t.Node? && Holding(tr, t, Symbols(t)) && n <= size <= |text|
    requires forall i :: 0 <= i < |text| ==> text[i] in Symbols(t)
    requires TextBits(t, text[..n]) <= bits
    requires n < size ==> bits < TextBits(t, text[..n + 1])
    ensures var w := FeedAll(tr, Walk([], [], size, false), bits); !w.crashed && w.text == text[..n]
  {
    hide CodeOf, Symbols, Holding, FeedAll, TextBits, Distinct;
    var done := TextBits(t, text[..n]);
    var more := bits[|done|..];
    assert bits == done + more && [] + text[..n] == text[..n];
    FeedText(tr, t, [], text[..n], size - n, more);
    if n == size {
      FeedNothing(tr, Walk([], text[..n], 0, false), more);
    } else {
      assert text[..n + 1] == text[..n] + [text[n]];
      MoreText(t, text[..n], text[n]);
      WayToSymbol(tr, t, text[n], more);
      WalkWay(tr, text[..n], size - n - 1, more, 0);
      assert more[..0] == [] && more[0..] == more;
    }
  }

  /** The beginning of a code leads over inner nodes. */
  lemma {:induction false} WayToSymbol(tr: Trie, t: CodeTree, s: Byte, p: Bits)
    requires Distinct(t) && Holding(tr, t, Symbols(t)) && s in Symbols(t) && p < CodeOf(t, s)
    ensures Way(tr, p)
  {
    hide CodeOf, Symbols, Distinct, IsPath, At;
    forall k | 0 < k <= |p| ensures Inner(tr, p[..k]) {
      assert p[..k] < CodeOf(t, s);
      assert Covered(t, Symbols(t), p[..k]);
      if p[..k] in tr.labels {
        CodesPrefixFree(t, tr.labels[p[..k]], s);
      }
    }
  }

  /** A cut within the header or the table. */
  lemma CutInTable(file: seq<Byte>, text: seq<Byte>, t: CodeTree, es: seq<Entry>, k: nat)
    requires ArchiveOf(file, text, t, es) && k < 8 + |TableBytes(es)| && k <= |file|
    ensures DecodeBytes(file[..k]) == BadTable
  {
    hide *;
    SizeFits(text);
    UseArchive(file, text, t, es);
    if k < 8 {
      ShortFile(file[..k]);
    } else {
      var n := |text| % TWO32;
      HeaderParts(file, es, n, Pack(TextBits(t, text)));
      assert file[..k][..4] == file[..4] && file[..k][4..8] == file[4..8];
      assert es[0..] == es;
      EmptyTrie(t);
      assert SymbolsIn(es[..0]) == {} by { NoSymbols(es[..0]); }
      ReadCut(es, t, 0, EMPTY, k - 8);
      assert file[..k][8..] == file[8..][..k - 8] == TableBytes(es)[..k - 8];
      BadTableFile(file[..k]);
    }
  }

  lemma {:induction false} ShortFile(file: seq<Byte>)
    requires |file| < 8
    ensures DecodeBytes(file) == BadTable
  {
  }

  lemma {:induction false} BadTableFile(file: seq<Byte>)
    requires |file| >= 8 && ReadEntries(file[8..], Host32(file[..4]), EMPTY) == TableEof
    ensures DecodeBytes(file) == BadTable
  {
    hide ReadEntries, Host32;
  }

  lemma {:induction false} UnpackPart(bs: Bits, m: nat)
    requires m <= |Pack(bs)|
    ensures Unpack(Pack(bs)[..m]) == Unpack(Pack(bs))[..8 * m]
  {
    hide BitOf, Pack;
  }

  // A cut in the data: the result is the longest beginning of the text whose codes are there completely, and the
  // program does not notice that anything is missing.
  lemma CutInData(file: seq<Byte>, text: seq<Byte>, t: CodeTree, es: seq<Entry>, k: nat) returns (n: nat)
    requires ArchiveOf(file, text, t, es) && t.Node? && 8 + |TableBytes(es)| <= k <= |file|
    ensures IsLongest(t, text, |text| % TWO32, 8 * (k - 8 - |TableBytes(es)|), n)
    ensures n <= |text| && DecodeBytes(file[..k]) == Text(text[..n])
  {
    hide *;
    SizeFits(text);
    UseArchive(file, text, t, es);
    var bits, size := TextBits(t, text), |text| % TWO32;
    var m := k - 8 - |TableBytes(es)|;
    var head := Net32(|es|) + Net32(size) + TableBytes(es);
    assert file[..k] == head + Pack(bits)[..m];
    n := LongestText(t, text, size, 8 * m);
    var tr := TableOf(es, t, Pack(bits)[..m]);
    DecodeRead(file[..k], es, size, Pack(bits)[..m], tr);
    PackedBits(bits);
    UnpackPart(bits, m);
    UseLongest(t, text, size, 8 * m, n);
    FeedPart(tr, t, text, size, Unpack(Pack(bits))[..8 * m], n);
  }
}
