module HuffmanTrie {
  // What the decoder of coursedesign/zip/program/huffman.c computes, as functions: a trie that grows by
  // one code after the other, and a walk through it. `None` and `crashed` stand for the steps that the
  // program takes through a null pointer or through the children of a leaf.

  import opened BitBytes
  import opened MergeTree
  import opened HuffmanCode
  import opened HuffmanTree
  import opened HuffmanFile

  /** The positions that have a node, and the symbols of those that are leaves. */
  datatype Trie = Trie(paths: set<Bits>, labels: map<Bits, Byte>)

  const EMPTY: Trie := Trie({[]}, map[])

  /** Makes a node at the position r unless there is one. */
  function Grow(tr: Trie, r: Bits, last: bool, s: Byte): Trie {
    if r in tr.paths then tr
    else Trie(tr.paths + {r}, if last then tr.labels[r := s] else tr.labels)
  }

  /** Adds what is left of a code, from the i-th bit on. */
  function InsertFrom(tr: Trie, code: Bits, i: nat, s: Byte): Option<Trie>
    requires i <= |code|
    decreases |code| - i
  {
    if i == |code| then Some(tr)
    else if code[..i] in tr.labels then None
    else InsertFrom(Grow(tr, code[..i + 1], i + 1 == |code|, s), code, i + 1, s)
  }

  datatype TableResult =
    | TableRead(trie: Trie, rest: seq<Byte>)
    | TableEof
    | TableUndefined

  /** An entry as it stands in the file, and what follows it. */
  datatype RawEntry = RawEntry(symbol: Byte, len: nat, code: seq<Byte>, rest: seq<Byte>)

  function ParseEntry(bytes: seq<Byte>): (r: Option<RawEntry>)
    ensures r != None ==> |r.value.rest| < |bytes| && r.value.len <= 8 * |r.value.code|
  {
    if |bytes| < 2 then None
    else
      var len := Index(bytes[1]);
      var lbytes := ByteLength(len);
      if |bytes| < 2 + lbytes then None
      else Some(RawEntry(bytes[0], len, bytes[2..2 + lbytes], bytes[2 + lbytes..]))
  }

  /** Reads `count` entries and adds their codes. */
  function ReadEntries(bytes: seq<Byte>, count: nat, tr: Trie): TableResult {
    if count == 0 then TableRead(tr, bytes)
    else
      match ParseEntry(bytes)
      case None => TableEof
      case Some(e) =>
        match InsertFrom(tr, Unpack(e.code)[..e.len], 0, e.symbol)
        case None => TableUndefined
        case Some(more) => ReadEntries(e.rest, count - 1, more)
  }

  /** Where the decoder is: its position in the trie, what it has written, how many symbols are missing. */
  datatype Walk = Walk(at: Bits, text: seq<Byte>, missing: nat, crashed: bool)

  function Feed(tr: Trie, w: Walk, b: bool): Walk {
    var r := w.at + [b];
    if w.missing == 0 || w.crashed then w
    else if r !in tr.paths then w.(crashed := true)
    else if r in tr.labels then Walk([], w.text + [tr.labels[r]], w.missing - 1, false)
    else w.(at := r)
  }

  function FeedAll(tr: Trie, w: Walk, bits: Bits): Walk
    decreases |bits|
  {
    if bits == [] then w else FeedAll(tr, Feed(tr, w, bits[0]), bits[1..])
  }

  datatype Decoded =
    | Text(text: seq<Byte>)
    | BadTable
    | Crash

  /** huffman_decode_file on any bytes. */
  function DecodeBytes(file: seq<Byte>): Decoded {
    if |file| < 8 then BadTable
    else
      match ReadEntries(file[8..], Host32(file[..4]), EMPTY)
      case TableEof => BadTable
      case TableUndefined => Crash
      case TableRead(tr, rest) =>
        var w := FeedAll(tr, Walk([], [], Host32(file[4..8]), false), Unpack(rest));
        if w.crashed then Crash else Text(w.text)
  }

  // ---- the trie after adding some of the codes of t ----

  /** p is the root, or lies on the code of a symbol in done. */
  ghost predicate Covered(t: CodeTree, done: set<Byte>, p: Bits) {
    p == [] || exists s :: s in done && s in Symbols(t) && p <= CodeOf(t, s)
  }

  /** The labels of tr are the codes of the symbols in done. */
  ghost predicate LabelsOf(tr: Trie, t: CodeTree, done: set<Byte>) {
    done <= Symbols(t) &&
    (forall p :: p in tr.labels ==> tr.labels[p] in done && p == CodeOf(t, tr.labels[p])) &&
    (forall s :: s in done ==> CodeOf(t, s) in tr.labels && tr.labels[CodeOf(t, s)] == s)
  }

  /** tr holds exactly the codes of the symbols in done. */
  ghost predicate Holding(tr: Trie, t: CodeTree, done: set<Byte>) {
    LabelsOf(tr, t, done) && forall p :: p in tr.paths <==> Covered(t, done, p)
  }

  /** tr holds the codes of done and the first i steps, but not all, of the code of s. */
  ghost predicate HoldingUpTo(tr: Trie, t: CodeTree, done: set<Byte>, s: Byte, i: nat) {
    LabelsOf(tr, t, done) && s in Symbols(t) && s !in done && i < |CodeOf(t, s)| &&
    forall p :: p in tr.paths <==> Covered(t, done, p) || (p <= CodeOf(t, s) && |p| <= i)
  }

  /** No code of done lies on the way to s, nor does the code of s lie on a way that is already there. */
  lemma {:induction false} NoLabelOnTheWay(t: CodeTree, done: set<Byte>, s: Byte)
    requires Distinct(t) && done <= Symbols(t) && s in Symbols(t) && s !in done
    ensures forall u :: u in done ==> !(CodeOf(t, u) <= CodeOf(t, s)) && !(CodeOf(t, s) <= CodeOf(t, u))
  {
    forall u | u in done ensures !(CodeOf(t, u) <= CodeOf(t, s)) && !(CodeOf(t, s) <= CodeOf(t, u)) {
      if CodeOf(t, u) <= CodeOf(t, s) {
        CodesPrefixFree(t, u, s);
      }
      if CodeOf(t, s) <= CodeOf(t, u) {
        CodesPrefixFree(t, s, u);
      }
    }
  }

  lemma {:induction false} InsertHolding(tr: Trie, t: CodeTree, done: set<Byte>, s: Byte, i: nat) returns (r: Trie)
    requires Distinct(t) && HoldingUpTo(tr, t, done, s, i)
    ensures InsertFrom(tr, CodeOf(t, s), i, s) == Some(r) && Holding(r, t, done + {s})
    decreases |CodeOf(t, s)| - i
  {
    hide CodeOf, Symbols;
    var code := CodeOf(t, s);
    NoLabelOnTheWay(t, done, s);
    assert code[..i] !in tr.labels;
    var more := Grow(tr, code[..i + 1], i + 1 == |code|, s);
    if i + 1 == |code| {
      assert code[..i + 1] == code;
      LastStep(tr, t, done, s, i);
      r := more;
    } else {
      NextStep(tr, t, done, s, i);
      r := InsertHolding(more, t, done, s, i + 1);
    }
  }

  lemma {:induction false} NextStep(tr: Trie, t: CodeTree, done: set<Byte>, s: Byte, i: nat)
    requires HoldingUpTo(tr, t, done, s, i) && i + 1 < |CodeOf(t, s)|
    ensures HoldingUpTo(Grow(tr, CodeOf(t, s)[..i + 1], false, s), t, done, s, i + 1)
  {
    hide CodeOf, Symbols, Covered;
    var code := CodeOf(t, s);
    var more := Grow(tr, code[..i + 1], false, s);
    forall p ensures p in more.paths <==> Covered(t, done, p) || (p <= code && |p| <= i + 1) {
      if p <= code && |p| == i + 1 {
        assert p == code[..i + 1];
      }
    }
  }

  /** The code of s is not there yet. */
  lemma {:induction false} NotThere(tr: Trie, t: CodeTree, done: set<Byte>, s: Byte, i: nat)
    requires Distinct(t) && HoldingUpTo(tr, t, done, s, i) && i + 1 == |CodeOf(t, s)|
    ensures CodeOf(t, s) !in tr.paths && done <= Symbols(t)
  {
    hide CodeOf, Symbols;
    NoLabelOnTheWay(t, done, s);
  }

  lemma {:induction false} LabelMore(labels: map<Bits, Byte>, t: CodeTree, done: set<Byte>, s: Byte, paths: set<Bits>)
    requires LabelsOf(Trie(paths, labels), t, done) && s in Symbols(t) && s !in done
    requires forall u :: u in done ==> CodeOf(t, u) != CodeOf(t, s)
    ensures LabelsOf(Trie(paths, labels[CodeOf(t, s) := s]), t, done + {s})
  {
    hide CodeOf, Symbols;
  }

  lemma {:induction false} PathMore(tr: Trie, t: CodeTree, done: set<Byte>, s: Byte, i: nat, p: Bits)
    requires HoldingUpTo(tr, t, done, s, i) && i + 1 == |CodeOf(t, s)|
    ensures p in tr.paths + {CodeOf(t, s)} <==> Covered(t, done + {s}, p)
  {
    hide CodeOf, Symbols, Covered, LabelsOf;
    CoverMore(t, done, s, p);
    if p <= CodeOf(t, s) && |p| == i + 1 {
      assert p == CodeOf(t, s);
    }
  }

  lemma LabelsIgnorePaths(tr: Trie, t: CodeTree, done: set<Byte>, paths: set<Bits>)
    requires LabelsOf(tr, t, done)
    ensures LabelsOf(Trie(paths, tr.labels), t, done)
  {
    hide CodeOf, Symbols;
  }

  lemma {:induction false} LastStep(tr: Trie, t: CodeTree, done: set<Byte>, s: Byte, i: nat)
    requires Distinct(t) && HoldingUpTo(tr, t, done, s, i) && i + 1 == |CodeOf(t, s)|
    ensures Holding(Grow(tr, CodeOf(t, s), true, s), t, done + {s})
  {
    hide CodeOf, Symbols, Covered, LabelsOf;
    var paths := tr.paths + {CodeOf(t, s)};
    NotThere(tr, t, done, s, i);
    NoLabelOnTheWay(t, done, s);
    LabelsIgnorePaths(tr, t, done, paths);
    LabelMore(tr.labels, t, done, s, paths);
    forall p ensures p in paths <==> Covered(t, done + {s}, p) {
      PathMore(tr, t, done, s, i, p);
    }
  }

  lemma {:induction false} CoverMore(t: CodeTree, done: set<Byte>, s: Byte, p: Bits)
    requires s in Symbols(t)
    ensures Covered(t, done + {s}, p) <==> Covered(t, done, p) || p <= CodeOf(t, s)
  {
    hide CodeOf, Symbols;
    if p <= CodeOf(t, s) {
      assert s in done + {s};
    }
  }

  /** Starting the code of s. */
  lemma {:induction false} FirstStep(tr: Trie, t: CodeTree, done: set<Byte>, s: Byte)
    requires Holding(tr, t, done) && s in Symbols(t) && s !in done && CodeOf(t, s) != []
    ensures HoldingUpTo(tr, t, done, s, 0)
  {
  }

  // ---- reading a whole table ----

  lemma {:induction false} TableBytesHead(e: Entry, es: seq<Entry>)
    ensures TableBytes([e] + es) == EntryBytes(e) + TableBytes(es)
  {
    hide EntryBytes;
    if es == [] {
      assert [e] + es == [e] && [e][..0] == [];
    } else {
      var n := |es| - 1;
      TableBytesHead(e, es[..n]);
      assert ([e] + es)[..n + 1] == [e] + es[..n];
      assert EntryBytes(e) + TableBytes(es) == EntryBytes(e) + TableBytes(es[..n]) + EntryBytes(es[n]);
    }
  }

  /** Reading one written entry gives back the symbol and the code. */
  lemma ReadOneEntry(e: Entry, more: seq<Byte>, count: nat, tr: Trie)
    requires |e.1| <= 255
    ensures ReadEntries(EntryBytes(e) + more, count + 1, tr) ==
      match InsertFrom(tr, e.1, 0, e.0)
      case None => TableUndefined
      case Some(next) => ReadEntries(more, count, next)
  {
    hide ByteFrom, Index, Pack, Unpack, InsertFrom, ParseEntry;
    ParseWritten(e, more);
    PackedBits(e.1);
    assert Unpack(Pack(e.1))[..|e.1|] == e.1;
  }

  lemma ParseWritten(e: Entry, more: seq<Byte>)
    requires |e.1| <= 255
    ensures ParseEntry(EntryBytes(e) + more) == Some(RawEntry(e.0, |e.1|, Pack(e.1), more))
  {
    hide ByteFrom, Index, Pack;
    var bytes := EntryBytes(e) + more;
    NumberOfByte(|e.1|);
    assert bytes[0] == e.0 && Index(bytes[1]) == |e.1|;
    var lbytes := ByteLength(|e.1|);
    assert bytes[2..2 + lbytes] == Pack(e.1);
    assert bytes[2 + lbytes..] == more;
  }

  ghost function SymbolsIn(es: seq<Entry>): set<Byte> {
    set e | e in es :: e.0
  }

  /** Reading the table of t, in any order, gives the trie with all codes of t. */
  lemma {:induction false} ReadTable(es: seq<Entry>, t: CodeTree, k: nat, tr: Trie, rest: seq<Byte>) returns (r: Trie)
    requires Distinct(t) && t.Node? && Height(t) <= 255 && Lists(es, t) && k <= |es|
    requires Holding(tr, t, SymbolsIn(es[..k]))
    ensures ReadEntries(TableBytes(es[k..]) + rest, |es| - k, tr) == TableRead(r, rest)
    ensures Holding(r, t, Symbols(t))
    decreases |es| - k
  {
    hide *;
    if k == |es| {
      AllListed(es, t);
      NothingToRead(tr, rest);
      r := tr;
      assert [] + rest == rest && es[..k] == es && es[k..] == [];
    } else {
      NotYetListed(es, t, k);
      CodeNotEmpty(t, es[k].0);
      FirstStep(tr, t, SymbolsIn(es[..k]), es[k].0);
      var next := InsertHolding(tr, t, SymbolsIn(es[..k]), es[k].0, 0);
      r := ReadTable(es, t, k + 1, next, rest);
      TableTail(es, k, rest);
      ReadOneEntry(es[k], TableBytes(es[k + 1..]) + rest, |es| - k - 1, tr);
    }
  }

  lemma TableTail(es: seq<Entry>, k: nat, rest: seq<Byte>)
    requires k < |es|
    ensures TableBytes(es[k..]) + rest == EntryBytes(es[k]) + (TableBytes(es[k + 1..]) + rest)
  {
    hide EntryBytes, TableBytes;
    assert es[k..] == [es[k]] + es[k + 1..];
    TableBytesHead(es[k], es[k + 1..]);
  }

  lemma {:induction false} NothingToRead(tr: Trie, rest: seq<Byte>)
    ensures TableBytes([]) == [] && ReadEntries(rest, 0, tr) == TableRead(tr, rest)
  {
  }

  lemma {:induction false} CodeNotEmpty(t: CodeTree, s: Byte)
    requires t.Node? && s in Symbols(t)
    ensures CodeOf(t, s) != [] && |CodeOf(t, s)| <= Height(t)
  {
  }

  lemma {:induction false} AllListed(es: seq<Entry>, t: CodeTree)
    requires Lists(es, t)
    ensures SymbolsIn(es) == Symbols(t)
  {
    hide CodeOf, Symbols;
    forall s | s in Symbols(t) ensures s in SymbolsIn(es) {
      var i :| 0 <= i < |es| && es[i].0 == s;
      assert es[i] in es;
    }
  }

  lemma {:induction false} NotYetListed(es: seq<Entry>, t: CodeTree, k: nat)
    requires Lists(es, t) && k < |es|
    ensures es[k].0 in Symbols(t) && es[k].1 == CodeOf(t, es[k].0) && es[k].0 !in SymbolsIn(es[..k])
    ensures SymbolsIn(es[..k + 1]) == SymbolsIn(es[..k]) + {es[k].0}
  {
    hide CodeOf, Symbols;
    assert es[..k + 1] == es[..k] + [es[k]];
  }

  /** The rebuilt trie is the encoder's tree: the same positions, and at the leaves the same symbols. */
  lemma {:induction false} TrieIsTree(tr: Trie, t: CodeTree)
    requires Distinct(t) && Holding(tr, t, Symbols(t))
    ensures forall p :: p in tr.paths <==> IsPath(t, p)
    ensures forall p :: p in tr.labels <==> IsPath(t, p) && At(t, p).Leaf?
    ensures forall p :: p in tr.labels ==> LeadsTo(t, p, tr.labels[p])
  {
    hide CodeOf, IsPath, At, Symbols;
    forall p ensures p in tr.paths <==> IsPath(t, p) {
      CoveredIsPath(t, p);
    }
    forall p | p in tr.labels ensures LeadsTo(t, p, tr.labels[p]) {
      CodeLeads(t, tr.labels[p]);
    }
    forall p | IsPath(t, p) && At(t, p).Leaf? ensures p in tr.labels {
      OnlyCodeLeads(t, p, At(t, p).symbol);
    }
  }

  lemma {:induction false} CoveredIsPath(t: CodeTree, p: Bits)
    requires Distinct(t)
    ensures Covered(t, Symbols(t), p) <==> IsPath(t, p)
  {
    hide CodeOf, At, Symbols;
    if IsPath(t, p) {
      var s := PathExtends(t, p);
    } else if s :| s in Symbols(t) && p <= CodeOf(t, s) {
      CodeLeads(t, s);
      PathPrefix(t, p, CodeOf(t, s));
    }
  }

  // ---- decoding the data ----

  lemma {:induction false} FeedNothing(tr: Trie, w: Walk, bits: Bits)
    requires w.missing == 0 || w.crashed
    ensures FeedAll(tr, w, bits) == w
    decreases |bits|
  {
    if bits != [] {
      FeedNothing(tr, w, bits[1..]);
    }
  }

  /** The rest of a code leads to its symbol and back to the root. */
  lemma {:induction false} FeedCode(tr: Trie, t: CodeTree, s: Byte, i: nat, out: seq<Byte>, n: nat, more: Bits)
    requires Distinct(t) && Holding(tr, t, Symbols(t)) && s in Symbols(t) && i < |CodeOf(t, s)|
    ensures FeedAll(tr, Walk(CodeOf(t, s)[..i], out, n + 1, false), CodeOf(t, s)[i..] + more)
         == FeedAll(tr, Walk([], out + [s], n, false), more)
    decreases |CodeOf(t, s)| - i
  {
    hide CodeOf, Symbols;
    var code := CodeOf(t, s);
    var bits := code[i..] + more;
    assert bits[0] == code[i] && bits[1..] == code[i + 1..] + more;
    assert code[..i] + [code[i]] == code[..i + 1];
    assert Covered(t, Symbols(t), code[..i + 1]);
    if i + 1 < |code| {
      assert code[..i + 1] !in tr.labels by {
        if code[..i + 1] in tr.labels {
          CodesPrefixFree(t, tr.labels[code[..i + 1]], s);
        }
      }
      FeedCode(tr, t, s, i + 1, out, n, more);
    } else {
      assert code[..i + 1] == code && code[i + 1..] + more == more;
    }
  }

  lemma {:induction false} TextBitsHead(t: CodeTree, c: Byte, text: seq<Byte>)
    requires c in Symbols(t) && forall i :: 0 <= i < |text| ==> text[i] in Symbols(t)
    ensures TextBits(t, [c] + text) == CodeOf(t, c) + TextBits(t, text)
  {
    hide *;
    if text == [] {
      MoreText(t, [], c);
      NoBits(t);
      assert [c] + text == [] + [c];
    } else {
      var n := |text| - 1;
      var front, last := text[..n], text[n];
      TextBitsHead(t, c, front);
      MoreText(t, front, last);
      MoreText(t, [c] + front, last);
      assert front + [last] == text && [c] + front + [last] == [c] + text;
    }
  }

  /** The bits of a text lead to the text, and to the root of the trie. */
  lemma {:induction false} FeedText(tr: Trie, t: CodeTree, out: seq<Byte>, text: seq<Byte>, spare: nat, more: Bits)
    requires Distinct(t) && t.Node? && Holding(tr, t, Symbols(t))
    requires forall i :: 0 <= i < |text| ==> text[i] in Symbols(t)
    ensures FeedAll(tr, Walk([], out, |text| + spare, false), TextBits(t, text) + more)
         == FeedAll(tr, Walk([], out + text, spare, false), more)
    decreases |text|
  {
    hide CodeOf, Symbols, Holding, FeedAll;
    if text == [] {
      assert out + text == out && TextBits(t, text) + more == more;
    } else {
      var s, rest := text[0], text[1..];
      assert text == [s] + rest;
      TextBitsHead(t, s, rest);
      CodeNotEmpty(t, s);
      FeedText(tr, t, out + [s], rest, spare, more);
      assert TextBits(t, text) + more == CodeOf(t, s)[0..] + (TextBits(t, rest) + more);
      FeedCode(tr, t, s, 0, out, |rest| + spare, TextBits(t, rest) + more);
      assert out + [s] + rest == out + text;
    }
  }

  lemma {:induction false} TextBitsSplit(t: CodeTree, text: seq<Byte>, n: nat)
    requires n <= |text| && forall i :: 0 <= i < |text| ==> text[i] in Symbols(t)
    ensures TextBits(t, text[..n]) <= TextBits(t, text)
    decreases |text|
  {
    hide CodeOf, Symbols;
    if n == |text| {
      assert text[..n] == text;
    } else {
      var m := |text| - 1;
      TextBitsSplit(t, text[..m], n);
      assert text[..m][..n] == text[..n];
    }
  }

  /** The part of the text that the 32-bit size field of the archive counts. */
  function Sized(text: seq<Byte>): seq<Byte> {
    SizeFits(text);
    text[..|text| % TWO32]
  }

  lemma {:induction false} SizeFits(text: seq<Byte>)
    ensures 0 <= |text| % TWO32 <= |text| && |text| % TWO32 < TWO32
  {
  }

  lemma {:induction false} HeaderParts(file: seq<Byte>, es: seq<Entry>, size: nat, rest: seq<Byte>)
    requires |es| < TWO32 && size < TWO32 && file == Net32(|es|) + Net32(size) + TableBytes(es) + rest
    ensures |file| >= 8 && Host32(file[..4]) == |es| && Host32(file[4..8]) == size && file[8..] == TableBytes(es) + rest
  {
    hide TableBytes, Net32, Host32;
    NetHost(|es|);
    NetHost(size);
    assert file[..4] == Net32(|es|) && file[4..8] == Net32(size);
  }

  /** Decoding a file whose table reads as the trie tr. */
  lemma {:induction false} DecodeRead(file: seq<Byte>, es: seq<Entry>, size: nat, rest: seq<Byte>, tr: Trie)
    requires |es| < TWO32 && size < TWO32 && file == Net32(|es|) + Net32(size) + TableBytes(es) + rest
    requires ReadEntries(TableBytes(es) + rest, |es|, EMPTY) == TableRead(tr, rest)
    ensures var w := FeedAll(tr, Walk([], [], size, false), Unpack(rest));
      DecodeBytes(file) == if w.crashed then Crash else Text(w.text)
  {
    hide TableBytes, Host32, Net32, ReadEntries, FeedAll, Unpack;
    HeaderParts(file, es, size, rest);
  }

  /** With a tree of at least two leaves: the text comes back, up to the 32-bit size field. */
  lemma DecodeTree(file: seq<Byte>, text: seq<Byte>, t: CodeTree, es: seq<Entry>)
    requires ArchiveOf(file, text, t, es) && t.Node?
    ensures DecodeBytes(file) == Text(Sized(text))
  {
    hide *;
    SizeFits(text);
    UseArchive(file, text, t, es);
    var bits, n := TextBits(t, text), |text| % TWO32;
    assert es[0..] == es;
    EmptyTrie(t);
    assert SymbolsIn(es[..0]) == {} by { NoSymbols(es[..0]); }
    var tr := ReadTable(es, t, 0, EMPTY, Pack(bits));
    DecodeRead(file, es, n, Pack(bits), tr);
    TextBitsSplit(t, text, n);
    PackedBits(bits);
    var more := Unpack(Pack(bits))[|TextBits(t, text[..n])|..];
    assert Unpack(Pack(bits)) == TextBits(t, text[..n]) + more;
    FeedText(tr, t, [], text[..n], 0, more);
    FeedNothing(tr, Walk([], [] + text[..n], 0, false), more);
    assert [] + text[..n] == text[..n];
    IsSized(text, n);
  }

  lemma {:induction false} IsSized(text: seq<Byte>, n: nat)
    requires n == |text| % TWO32
    ensures n <= |text| && Sized(text) == text[..n]
  {
  }

  lemma NoSymbols(es: seq<Entry>)
    requires es == []
    ensures SymbolsIn(es) == {}
  {
  }

  lemma {:induction false} UseArchive(file: seq<Byte>, text: seq<Byte>, t: CodeTree, es: seq<Entry>)
    requires ArchiveOf(file, text, t, es)
    ensures |es| < TWO32 && 0 <= |text| % TWO32 < TWO32
    ensures Distinct(t) && Height(t) <= 255 && Lists(es, t) && CodesText(t, text)
    ensures forall i :: 0 <= i < |text| ==> text[i] in Symbols(t)
    ensures file == Net32(|es|) + Net32(|text| % TWO32) + TableBytes(es) + Pack(TextBits(t, text))
  {
    hide Lists, Net32, TableBytes, Pack, Symbols, TextBits, Distinct, CodesText;
    TextSymbols(t, text);
    TreeFitsTable(t, text);
  }

  lemma {:induction false} TreeFitsTable(t: CodeTree, text: seq<Byte>)
    requires CodesText(t, text)
    ensures Height(t) <= 255
  {
  }

  lemma EmptyTrie(t: CodeTree)
    ensures Holding(EMPTY, t, {})
  {
  }

  lemma {:induction false} LeafBits(t: CodeTree, text: seq<Byte>)
    requires t.Leaf? && forall i :: 0 <= i < |text| ==> text[i] in Symbols(t)
    ensures TextBits(t, text) == []
  {
    if text != [] {
      LeafBits(t, text[..|text| - 1]);
    }
  }

  /** With a single symbol every code is empty, and nothing is decoded. */
  lemma DecodeLeaf(file: seq<Byte>, text: seq<Byte>, t: CodeTree, es: seq<Entry>)
    requires ArchiveOf(file, text, t, es) && t.Leaf?
    ensures DecodeBytes(file) == Text([])
  {
    hide *;
    SizeFits(text);
    UseArchive(file, text, t, es);
    LeafBits(t, text);
    OneEntry(es, t);
    TableTail(es, 0, Pack([]));
    NoTableLeft(es);
    PackNothing();
    assert [] + Pack([]) == Pack([]);
    ReadOneEntry(es[0], Pack([]), 0, EMPTY);
    NoCode(es[0].0);
    NothingToRead(EMPTY, Pack([]));
    DecodeRead(file, es, |text| % TWO32, Pack([]), EMPTY);
    FeedEmpty(Walk([], [], |text| % TWO32, false));
  }

  lemma {:induction false} NoCode(s: Byte)
    ensures InsertFrom(EMPTY, [], 0, s) == Some(EMPTY)
  {
  }

  lemma {:induction false} FeedEmpty(w: Walk)
    ensures FeedAll(EMPTY, w, []) == w
  {
  }

  lemma OneEntry(es: seq<Entry>, t: CodeTree)
    requires Lists(es, t) && t.Leaf?
    ensures |es| == 1 && es[0].1 == []
  {
    assert t.symbol in Symbols(t);
    var n := |es| - 1;
    assert es[0].0 == t.symbol && es[n].0 == t.symbol;
  }

  lemma NoTableLeft(es: seq<Entry>)
    requires |es| == 1
    ensures es[0..] == es && TableBytes(es[1..]) == []
  {
  }

  lemma PackNothing()
    ensures Pack([]) == [] && Unpack([]) == []
  {
  }

  /** A tree with more than one leaf has two different symbols, and only such a tree does. */
  lemma TwoSymbols(t: CodeTree, text: seq<Byte>)
    requires CodesText(t, text)
    ensures text != []
    ensures t.Node? <==> exists i, j :: 0 <= i < |text| && 0 <= j < |text| && text[i] != text[j]
  {
    hide CodesText;
    TextSymbols(t, text);
    SomeSymbol(t);
    if t.Node? {
      SomeSymbol(t.zero);
      SomeSymbol(t.one);
      var s :| s in Symbols(t.zero);
      var u :| u in Symbols(t.one);
      assert s in text && u in text && s != u;
      var i :| 0 <= i < |text| && text[i] == s;
      var j :| 0 <= j < |text| && text[j] == u;
      assert text[i] != text[j];
    } else {
      assert forall i :: 0 <= i < |text| ==> text[i] in Symbols(t);
    }
  }

  lemma {:induction false} SomeSymbol(t: CodeTree)
    ensures exists s :: s in Symbols(t)
  {
    match t
    case Leaf(s, _) => assert s in Symbols(t);
    case Node(l, _) =>
      SomeSymbol(l);
      var s :| s in Symbols(l);
      assert s in Symbols(t);
  }

  // Decoding an archive of a text. The text comes back exactly when it has two different byte values and
  // its length fits the 32-bit size field.
  lemma {:induction false} RoundTrip(file: seq<Byte>, text: seq<Byte>, t: CodeTree, es: seq<Entry>)
    requires ArchiveOf(file, text, t, es)
    ensures DecodeBytes(file) == Text(if t.Leaf? then [] else Sized(text))
    ensures DecodeBytes(file) == Text(text) <==>
      (exists i, j :: 0 <= i < |text| && 0 <= j < |text| && text[i] != text[j]) && |text| < TWO32
  {
    hide DecodeBytes, ArchiveBytes, CodesText, Lists;
    TwoSymbols(t, text);
    if t.Leaf? {
      DecodeLeaf(file, text, t, es);
    } else {
      DecodeTree(file, text, t, es);
      SizedLength(text);
    }
  }

  lemma {:induction false} SizedLength(text: seq<Byte>)
    ensures Sized(text) == text <==> |text| < TWO32
  {
  }
}
