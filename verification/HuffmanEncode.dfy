// huffman_encode_file of coursedesign/zip/program/huffman.c, with the counting of the symbols, the writing of
// the table and the packing of the codes. Each loop is a method with its own invariant: the counts of what was
// read so far, the entries of the symbols below the current one, and the bits of the codes so far, of which the
// full bytes have been written and the rest stands in the current byte.
module HuffmanEncode {
  import opened BitBytes
  import opened MergeTree
  import opened HuffmanCode
  import opened HuffmanTree
  import opened HuffmanBuild
  import opened HuffmanCalc
  import opened HuffmanFile
  import opened HuffmanSize

  // ---- counting ----

  /** The table after counting the text: a leaf with the right count for every symbol that occurs. */
  ghost predicate Counted(sf: seq<HNode?>, text: seq<Byte>)
    reads set r | r in sf
  {
    |sf| == MAX_SYMBOLS && forall s: Byte ::
      var r := sf[Index(s)];
      if s in text then
        r != null && r.leaf && r.symbol == s && r.count == multiset(text)[s] && r.parent == null
      else r == null
  }

  lemma CountedOne(sf: seq<HNode?>, text: seq<Byte>, c: Byte, r: HNode)
    requires |sf| == MAX_SYMBOLS && sf[Index(c)] == r
    requires r.leaf && r.symbol == c && r.count == multiset(text)[c] + 1 && r.parent == null
    requires forall s: Byte :: s != c ==>
      var u := sf[Index(s)];
      if s in text then
        u != null && u.leaf && u.symbol == s && u.count == multiset(text)[s] && u.parent == null
      else u == null
    ensures Counted(sf, text + [c])
  {
    hide Index;
    assert multiset(text + [c]) == multiset(text) + multiset{c};
  }

  method NewSymfreq() returns (sf: array<HNode?>)
    ensures fresh(sf) && sf.Length == MAX_SYMBOLS
  {
    sf := new HNode?[MAX_SYMBOLS](_ => null);
  }

  /** Counts one symbol. */
  method CountSymbol(sf: array<HNode?>, uc: Byte, ghost text: seq<Byte>)
    requires sf.Length == MAX_SYMBOLS && Counted(sf[..], text)
    modifies sf, sf[Index(uc)]
    ensures Counted(sf[..], text + [uc])
    ensures forall k :: 0 <= k < sf.Length && k != Index(uc) ==> sf[k] == old(sf[k])
    ensures sf[Index(uc)] == old(sf[Index(uc)]) || fresh(sf[Index(uc)])
  {
    hide Index;
    forall s: Byte ensures s != uc ==> Index(s) != Index(uc) {
      IndexIsUnique(s, uc);
    }
    var i := Index(uc);
    if sf[i] == null {
      sf[i] := new HNode.NewLeaf(uc);
    }
    var r := sf[i];
    r.count := r.count + 1;
    CountedOne(sf[..], text, uc, r);
  }

  /** Reads the whole file; the total is an unsigned int and wraps. */
  method GetSymfreq(sf: array<HNode?>, input: File) returns (tot: nat)
    requires sf.Length == MAX_SYMBOLS && input.Valid() && input.pos == 0
    modifies sf, input`pos
    ensures input.Valid() && tot == |input.data| % TWO32 && tot < TWO32
    ensures Counted(sf[..], input.data)
    ensures forall k :: 0 <= k < sf.Length && sf[k] != null ==> fresh(sf[k])
  {
    hide Counted, Index;
    InitFreq(sf);
    NothingCounted(sf[..]);
    tot := 0;
    var c := input.Getc();
    ghost var text := [];
    Wrap(0);
    while c != None
      invariant input.Valid() && |text| <= |input.data| && text == input.data[..|text|]
      invariant if c == None then |text| == |input.data|
        else |text| < |input.data| && c.value == input.data[|text|] && input.pos == |text| + 1
      invariant Counted(sf[..], text) && tot == |text| % TWO32
      invariant forall k :: 0 <= k < sf.Length && sf[k] != null ==> fresh(sf[k])
      decreases |input.data| - |text|
    {
      Wrap(|text|);
      CountSymbol(sf, c.value, text);
      text := text + [c.value];
      tot := (tot + 1) % TWO32;
      c := input.Getc();
    }
    assert text == input.data;
    Wrap(|text|);
  }

  method InitFreq(sf: array<HNode?>)
    modifies sf
    ensures forall k :: 0 <= k < sf.Length ==> sf[k] == null
  {
    forall k | 0 <= k < sf.Length {
      sf[k] := null;
    }
  }

  lemma {:induction false} Wrap(n: nat)
    ensures TWO32 > 0 && 0 % TWO32 == 0 && n % TWO32 < TWO32
    ensures (n % TWO32 + 1) % TWO32 == (n + 1) % TWO32
  {
  }

  lemma NothingCounted(sf: seq<HNode?>)
    requires |sf| == MAX_SYMBOLS && forall k :: 0 <= k < |sf| ==> sf[k] == null
    ensures Counted(sf, [])
  {
  }

  lemma CountedAt(sf: seq<HNode?>, text: seq<Byte>, k: nat)
    requires Counted(sf, text) && k < |sf|
    ensures sf[k] != null ==>
      Index(sf[k].symbol) == k && sf[k].symbol in text && sf[k].count == multiset(text)[sf[k].symbol] &&
      sf[k].leaf && sf[k].parent == null
  {
    NumberOfByte(k);
    hide Index, ByteFrom;
    assert sf[Index(ByteFrom(k))] == sf[k];
  }

  /** Counting leaves exactly the table that calc_code expects. */
  lemma CountedLeaves(sf: seq<HNode?>, text: seq<Byte>)
    requires Counted(sf, text)
    ensures FreshLeaves(sf) && FreqItems(sf) == Frequencies(text)
    ensures NoSymbol(sf) <==> text == []
  {
    forall k | 0 <= k < |sf| {
      CountedAt(sf, text, k);
    }
    hide Index;
    forall r | r in sf && r != null ensures r.leaf && r.parent == null && multiset(sf)[r] == 1 {
      var k :| 0 <= k < |sf| && sf[k] == r;
      OnlyOnce(sf, k);
    }
    forall x | x in Frequencies(text) ensures x in FreqItems(sf) {
      assert sf[Index(x.0)] in sf;
    }
    if text != [] {
      assert text[0] in text && sf[Index(text[0])] != null;
    }
  }

  lemma OnlyOnce(sf: seq<HNode?>, k: nat)
    requires k < |sf| && forall l :: 0 <= l < |sf| && sf[l] == sf[k] ==> l == k
    ensures multiset(sf)[sf[k]] == 1
  {
    assert sf == sf[..k] + [sf[k]] + sf[k + 1..];
    assert sf[k] !in sf[..k] && sf[k] !in sf[k + 1..];
  }

  // ---- the code table ----

  /** The entries of the table for the first i byte values. */
  function EntriesUpTo(t: CodeTree, i: nat): (es: seq<Entry>)
    requires i <= MAX_SYMBOLS
    ensures |es| <= i
  {
    if i == 0 then []
    else
      var s := ByteFrom(i - 1);
      EntriesUpTo(t, i - 1) + if s in Symbols(t) then [(s, CodeOf(t, s))] else []
  }

  /** es lists the codes of the symbols below i, each once, in rising order. */
  ghost predicate ListsBelow(es: seq<Entry>, t: CodeTree, i: nat) {
    && (forall k :: 0 <= k < |es| ==> es[k].0 in Symbols(t) && es[k].1 == CodeOf(t, es[k].0) && Index(es[k].0) < i)
    && (forall j, k :: 0 <= j < k < |es| ==> Index(es[j].0) < Index(es[k].0))
    && (forall s :: s in Symbols(t) && Index(s) < i ==> exists k :: 0 <= k < |es| && es[k].0 == s)
  }

  lemma {:induction false} StillListed(es: seq<Entry>, e: Entry, u: Byte)
    requires (exists k :: 0 <= k < |es| && es[k].0 == u) || e.0 == u
    ensures exists k :: 0 <= k < |es + [e]| && (es + [e])[k].0 == u
  {
    var more := es + [e];
    if e.0 == u {
      assert more[|es|].0 == u;
    } else {
      var k :| 0 <= k < |es| && es[k].0 == u;
      assert more[k].0 == u;
    }
  }

  lemma {:induction false} ListsOneMore(es: seq<Entry>, t: CodeTree, i: nat, s: Byte)
    requires ListsBelow(es, t, i) && Index(s) == i
    ensures ListsBelow(es + if s in Symbols(t) then [(s, CodeOf(t, s))] else [], t, i + 1)
  {
    hide Index, CodeOf, Symbols;
    forall u ensures Index(u) == i ==> u == s {
      IndexIsUnique(u, s);
    }
    if s in Symbols(t) {
      var e := (s, CodeOf(t, s));
      assert forall k :: 0 <= k < |es| ==> (es + [e])[k] == es[k];
      forall u | u in Symbols(t) && Index(u) < i + 1 ensures exists k :: 0 <= k < |es + [e]| && (es + [e])[k].0 == u {
        StillListed(es, e, u);
      }
    } else {
      assert es + [] == es;
    }
  }

  lemma {:induction false} EntriesAreSymbols(t: CodeTree, i: nat)
    requires i <= MAX_SYMBOLS
    ensures ListsBelow(EntriesUpTo(t, i), t, i)
  {
    hide Index, ByteFrom, Symbols, CodeOf;
    if i > 0 {
      EntriesAreSymbols(t, i - 1);
      NumberOfByte(i - 1);
      ListsOneMore(EntriesUpTo(t, i - 1), t, i - 1, ByteFrom(i - 1));
    }
  }

  lemma {:induction false} AllEntries(t: CodeTree)
    ensures Lists(EntriesUpTo(t, MAX_SYMBOLS), t)
    ensures var es := EntriesUpTo(t, MAX_SYMBOLS);
      forall j, k :: 0 <= j < k < |es| ==> Index(es[j].0) < Index(es[k].0)
  {
    EntriesAreSymbols(t, MAX_SYMBOLS);
  }

  /** How many entries of the table are filled. */
  method CountCodes(sc: array<Option<Code>>, ghost t: CodeTree) returns (count: nat)
    requires TableFor(sc[..], t)
    ensures count == |EntriesUpTo(t, MAX_SYMBOLS)|
  {
    hide *;
    TableSize(sc[..], t);
    count := 0;
    NoEntries(t);
    for i := 0 to MAX_SYMBOLS
      invariant count == |EntriesUpTo(t, i)|
    {
      NextEntry(sc[..], t, i);
      if sc[i] != None {
        count := count + 1;
      }
    }
  }

  lemma {:induction false} TableSize(sc: Table, t: CodeTree)
    requires TableFor(sc, t)
    ensures |sc| == MAX_SYMBOLS < TWO32
  {
  }

  lemma {:induction false} NoEntries(t: CodeTree)
    ensures EntriesUpTo(t, 0) == [] && TableBytes(EntriesUpTo(t, 0)) == []
  {
  }

  lemma NextEntry(sc: Table, t: CodeTree, i: nat)
    requires TableFor(sc, t) && i < MAX_SYMBOLS
    ensures |sc| == MAX_SYMBOLS
    ensures sc[i] == None ==> EntriesUpTo(t, i + 1) == EntriesUpTo(t, i)
    ensures sc[i] != None ==> |EntriesUpTo(t, i + 1)| == |EntriesUpTo(t, i)| + 1
    ensures sc[i] != None ==>
      TableBytes(EntriesUpTo(t, i + 1)) ==
        TableBytes(EntriesUpTo(t, i)) + ([ByteFrom(i), ByteFrom(sc[i].value.len % 256)] + sc[i].value.bits)
    ensures sc[i] != None ==> |sc[i].value.bits| == ByteLength(sc[i].value.len)
  {
    NumberOfByte(i);
    hide Index, ByteFrom, CodeOf, Symbols, Pack, TableBytes, EntriesUpTo;
    var s := ByteFrom(i);
    assert sc[Index(s)] == CodeEntry(t, s);
    OneMoreEntry(t, i);
    if s in Symbols(t) {
      TableBytesAppend(EntriesUpTo(t, i), (s, CodeOf(t, s)));
    }
  }

  lemma OneMoreEntry(t: CodeTree, i: nat)
    requires i < MAX_SYMBOLS
    ensures var s := ByteFrom(i);
      EntriesUpTo(t, i + 1) == EntriesUpTo(t, i) + if s in Symbols(t) then [(s, CodeOf(t, s))] else []
  {
    hide ByteFrom, Symbols, CodeOf;
  }

  lemma {:induction false} TableBytesAppend(es: seq<Entry>, e: Entry)
    ensures TableBytes(es + [e]) == TableBytes(es) + EntryBytes(e)
  {
    hide EntryBytes;
    assert (es + [e])[..|es|] == es;
  }

  /** Number of codes, number of bytes to come, then every code. */
  method WriteCodeTable(out: File, sc: array<Option<Code>>, syms: nat, ghost t: CodeTree)
    requires TableFor(sc[..], t) && syms < TWO32
    modifies out`data
    ensures var es := EntriesUpTo(t, MAX_SYMBOLS);
      out.data == old(out.data) + (Net32(|es|) + Net32(syms) + TableBytes(es))
  {
    hide *;
    ghost var start := out.data;
    TableSize(sc[..], t);
    var count := CountCodes(sc, t);
    out.Write(Net32(count));
    out.Write(Net32(syms));
    ghost var head := Net32(count) + Net32(syms);
    NoEntries(t);
    for i := 0 to MAX_SYMBOLS
      invariant out.data == start + (head + TableBytes(EntriesUpTo(t, i)))
    {
      NextEntry(sc[..], t, i);
      WriteEntry(out, i, sc[i]);
    }
  }

  method WriteEntry(out: File, i: nat, p: Option<Code>)
    requires i < MAX_SYMBOLS && (p != None ==> |p.value.bits| == ByteLength(p.value.len))
    modifies out`data
    ensures out.data == old(out.data) +
      if p == None then [] else [ByteFrom(i), ByteFrom(p.value.len % 256)] + p.value.bits
  {
    hide ByteFrom;
    if p != None {
      out.Write([ByteFrom(i)]);
      out.Write([ByteFrom(p.value.len % 256)]);
      var lbytes := ByteLength(p.value.len);
      out.Write(p.value.bits[..lbytes]);
    }
  }

  // ---- the data ----

  /** Adds a bit to the current byte and writes the byte when it is full. */
  method PushBit(out: File, cByte: Byte, cBit: nat, bit: Byte, ghost start: seq<Byte>, ghost bits: Bits, ghost b: bool)
    returns (rByte: Byte, rBit: nat)
    requires out.data == start + FullBytes(bits) && cByte == ByteOf(Rest(bits)) && cBit == |bits| % 8
    requires bit == BitValue(b)
    modifies out`data
    ensures out.data == start + FullBytes(bits + [b])
    ensures rByte == ByteOf(Rest(bits + [b])) && rBit == |bits + [b]| % 8
  {
    hide FullBytes, Rest, ByteOf, BitValue, OrShifted;
    PackBit(bits, b);
    NothingLeft();
    rByte, rBit := OrShifted(cByte, bit, cBit), cBit + 1;
    if rBit == 8 {
      out.Write([rByte]);
      rByte := ZERO;
      rBit := 0;
    }
  }

  lemma NothingLeft()
    ensures ByteOf([]) == ZERO && FullBytes([]) == [] && Rest([]) == []
  {
  }

  /** Adds the bits of one code. */
  method PushCode(out: File, cod: Code, cByte: Byte, cBit: nat, ghost start: seq<Byte>, ghost bits: Bits, ghost p: Bits)
    returns (rByte: Byte, rBit: nat)
    requires out.data == start + FullBytes(bits) && cByte == ByteOf(Rest(bits)) && cBit == |bits| % 8
    requires cod == MakeCode(p)
    modifies out`data
    ensures out.data == start + FullBytes(bits + p)
    ensures rByte == ByteOf(Rest(bits + p)) && rBit == |bits + p| % 8
  {
    hide *;
    UseCode(cod, p);
    rByte, rBit := cByte, cBit;
    assert bits + p[..0] == bits;
    for i := 0 to cod.len
      invariant out.data == start + FullBytes(bits + p[..i])
      invariant rByte == ByteOf(Rest(bits + p[..i])) && rBit == |bits + p[..i]| % 8
    {
      CodeBit(cod, p, i);
      assert bits + p[..i + 1] == bits + p[..i] + [p[i]];
      rByte, rBit := PushBit(out, rByte, rBit, GetBit(cod.bits, i), start, bits + p[..i], p[i]);
    }
    assert p[..|p|] == p;
  }

  lemma UseCode(cod: Code, p: Bits)
    requires cod == MakeCode(p)
    ensures cod.len == |p| && |p| <= 8 * |cod.bits|
  {
  }

  lemma CodeBit(cod: Code, p: Bits, i: nat)
    requires cod == MakeCode(p) && i < |p|
    ensures i < 8 * |cod.bits| && GetBit(cod.bits, i) == BitValue(p[i])
  {
    hide Pack, GetBit, BitValue, Unpack;
    GetBitIsBit(cod.bits, i);
    PackedBit(p, i);
  }

  /** Scans the input again and writes the code of every byte. */
  method DoFileEncode(input: File, out: File, sc: array<Option<Code>>, ghost t: CodeTree)
    requires input != out && input.Valid() && input.pos == 0 && TableFor(sc[..], t)
    requires forall i :: 0 <= i < |input.data| ==> input.data[i] in Symbols(t)
    modifies input`pos, out`data
    ensures input.Valid() && out.data == old(out.data) + Pack(TextBits(t, input.data))
  {
    hide *;
    ghost var start, text := out.data, [];
    NothingLeft();
    NoBits(t);
    var cByte, cBit := ZERO, 0;
    var c := input.Getc();
    while c != None
      invariant input.Valid() && |text| <= |input.data| && text == input.data[..|text|]
      invariant if c == None then |text| == |input.data|
        else |text| < |input.data| && c.value == input.data[|text|] && input.pos == |text| + 1
      invariant out.data == start + FullBytes(TextBits(t, text))
      invariant cByte == ByteOf(Rest(TextBits(t, text))) && cBit == |TextBits(t, text)| % 8
      decreases |input.data| - |text|
    {
      CodeInTable(sc[..], t, c.value);
      MoreText(t, text, c.value);
      cByte, cBit := PushCode(out, sc[Index(c.value)].value, cByte, cBit, start, TextBits(t, text), CodeOf(t, c.value));
      text := text + [c.value];
      c := input.Getc();
    }
    assert text == input.data;
    if cBit > 0 {
      out.Write([cByte]);
    }
    PackIs(TextBits(t, text));
  }

  lemma {:induction false} CodeInTable(sc: Table, t: CodeTree, s: Byte)
    requires TableFor(sc, t) && s in Symbols(t)
    ensures Index(s) < |sc| && sc[Index(s)] == Some(MakeCode(CodeOf(t, s)))
  {
    hide MakeCode, CodeOf;
    assert sc[Index(s)] == CodeEntry(t, s);
  }

  lemma PackIs(bits: Bits)
    ensures Pack(bits) == FullBytes(bits) + if |bits| % 8 > 0 then [ByteOf(Rest(bits))] else []
  {
  }

  // ---- the whole encoder ----

  /** The depth of a tree over at most 256 symbols fits the one-byte length field. */
  lemma {:induction false} DepthFitsByte(t: CodeTree, items: seq<(Byte, nat)>)
    requires Optimal(t, items)
    ensures Height(t) < |items| <= MAX_SYMBOLS && Height(t) <= 255
  {
    hide Optimal;
    UseOptimal(t, items);
    HeightBelowLeaves(t);
    assert |Leaves(t)| == |multiset(Leaves(t))| == |multiset(items)| == |items|;
    FewItems(items);
  }

  lemma {:induction false} UseOptimal(t: CodeTree, items: seq<(Byte, nat)>)
    requires Optimal(t, items)
    ensures TreeOver(t, items) && DistinctItems(items) && Distinct(t)
  {
  }

  lemma FewItems(items: seq<(Byte, nat)>)
    requires DistinctItems(items)
    ensures |items| <= MAX_SYMBOLS
  {
    var numbers := Numbers(items);
    FewNumbers(numbers, MAX_SYMBOLS);
  }

  function Numbers(items: seq<(Byte, nat)>): (r: seq<nat>)
    requires DistinctItems(items)
    ensures |r| == |items| && forall k :: 0 <= k < |r| ==> r[k] < MAX_SYMBOLS
    ensures forall i, j :: 0 <= i < j < |r| ==> r[i] != r[j]
  {
    forall i, j | 0 <= i < j < |items| ensures Index(items[i].0) != Index(items[j].0) {
      IndexIsUnique(items[i].0, items[j].0);
    }
    seq(|items|, k requires 0 <= k < |items| => Index(items[k].0))
  }

  /** There are at most n different numbers below n. */
  lemma {:induction false} FewNumbers(s: seq<nat>, n: nat)
    requires forall k :: 0 <= k < |s| ==> s[k] < n
    requires forall i, j :: 0 <= i < j < |s| ==> s[i] != s[j]
    ensures |s| <= n
  {
    assert |s| == 0 || s[0] < n;
    if n > 0 {
      if k :| 0 <= k < |s| && s[k] == n - 1 {
        FewNumbers(s[..k] + s[k + 1..], n - 1);
      } else {
        FewNumbers(s, n - 1);
      }
    }
  }

  // huffman_encode_file. An empty input makes the merge loop dereference a null root; every other input
  // yields an archive of it, for some tree that is cheapest for its byte counts.
  method EncodeFile(input: File, out: File) returns (crashed: bool, ghost t: CodeTree)
    requires input != out && input.Valid() && input.pos == 0 && out.data == []
    modifies input`pos, out`data
    ensures crashed <==> input.data == []
    ensures !crashed ==> ArchiveOf(out.data, input.data, t, EntriesUpTo(t, MAX_SYMBOLS))
    ensures !crashed ==> forall code :: PrefixCodeFor(input.data, code) ==>
      |TextBits(t, input.data)| <= TextLength(input.data, code)
    ensures !crashed ==> forall p :: IsPath(t, p) && At(t, p).Node? ==> Weight(At(t, p).zero) <= Weight(At(t, p).one)
  {
    hide *;
    var sf := NewSymfreq();
    var syms := GetSymfreq(sf, input);
    CountedLeaves(sf[..], input.data);
    var sc;
    ghost var items;
    crashed, sc, t, items := CalcCode(sf);
    if crashed {
      return;
    }
    input.Rewind();
    MakeCodesText(t, items, input.data);
    WriteCodeTable(out, sc, syms, t);
    DoFileEncode(input, out, sc, t);
    MakeArchive(out.data, input.data, t);
    LighterEverywhere(t);
    forall code | PrefixCodeFor(input.data, code) ensures |TextBits(t, input.data)| <= TextLength(input.data, code) {
      NoPrefixCodeWritesLess(t, input.data, code);
    }
  }

  lemma {:induction false} MakeCodesText(t: CodeTree, items: seq<(Byte, nat)>, text: seq<Byte>)
    requires Optimal(t, items) && (set x | x in items) == Frequencies(text)
    ensures CodesText(t, text) && forall i :: 0 <= i < |text| ==> text[i] in Symbols(t)
  {
    hide Optimal, Frequencies, Symbols;
    DepthFitsByte(t, items);
    assert CodesText(t, text);
    TextSymbols(t, text);
  }

  lemma {:induction false} MakeArchive(file: seq<Byte>, text: seq<Byte>, t: CodeTree)
    requires CodesText(t, text) && forall i :: 0 <= i < |text| ==> text[i] in Symbols(t)
    requires var es := EntriesUpTo(t, MAX_SYMBOLS);
      file == [] + (Net32(|es|) + Net32(|text| % TWO32) + TableBytes(es)) + Pack(TextBits(t, text))
    ensures ArchiveOf(file, text, t, EntriesUpTo(t, MAX_SYMBOLS))
  {
    hide Net32, TableBytes, Pack, TextBits, CodesText, Lists, EntriesUpTo;
    AllEntries(t);
  }
}
