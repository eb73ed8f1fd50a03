module HuffmanSample {
  // A whole archive of coursedesign/zip/program/huffman.c byte for byte: that of the text "abbcccc", whose counts
  // leave the program no choice. It fixes the order of the bytes in the header, the order of the bits in a byte,
  // which child is written as 1, and which way a code runs.

  import opened BitBytes
  import opened MergeTree
  import opened HuffmanCode
  import opened HuffmanTree
  import opened HuffmanBuild
  import opened HuffmanCalc
  import opened HuffmanFile
  import opened HuffmanEncode

  const A: Byte := Byte(97)
  const B: Byte := Byte(98)
  const C: Byte := Byte(99)

  const TEXT: seq<Byte> := [A, B, B, C, C, C, C]

  const TREE: CodeTree := Node(Node(Leaf(A, 1), Leaf(B, 2)), Leaf(C, 4))

  // ---- trees with three symbols ----

  type Counts = map<Byte, nat>

  /** Every leaf holds a symbol with its count. */
  predicate Counted(t: CodeTree, w: Counts) {
    match t
    case Leaf(s, x) => s in w && x == w[s]
    case Node(l, r) => Counted(l, w) && Counted(r, w)
  }

  function One(s: Byte, w: Counts): CodeTree
    requires s in w
  {
    Leaf(s, w[s])
  }

  function Pair(s: Byte, u: Byte, w: Counts): CodeTree
    requires s in w && u in w
  {
    Node(One(s, w), One(u, w))
  }

  lemma {:induction false} SymbolExists(t: CodeTree) returns (s: Byte)
    ensures s in Symbols(t)
  {
    match t
    case Leaf(u, _) => s := u;
    case Node(l, _) => s := SymbolExists(l);
  }

  lemma {:induction false} NodeHasTwo(t: CodeTree)
    requires t.Node? && Distinct(t)
    ensures exists s, u :: s in Symbols(t) && u in Symbols(t) && s != u
  {
    var s := SymbolExists(t.zero);
    var u := SymbolExists(t.one);
    assert s in Symbols(t) && u in Symbols(t) && s != u;
  }

  lemma {:induction false} OneLeaf(t: CodeTree, s: Byte, w: Counts)
    requires Counted(t, w) && Distinct(t) && Symbols(t) == {s}
    ensures s in w && t == One(s, w)
  {
    if t.Node? {
      NodeHasTwo(t);
    } else {
      assert t.symbol in Symbols(t);
    }
  }

  lemma {:induction false} NonEmpty(t: CodeTree)
    ensures Symbols(t) != {}
  {
    var s := SymbolExists(t);
  }

  lemma SplitTwo(x: set<Byte>, y: set<Byte>, s: Byte, u: Byte)
    requires x + y == {s, u} && x !! y && x != {} && y != {} && s != u
    ensures (x == {s} && y == {u}) || (x == {u} && y == {s})
  {
    assert x == (if s in x then {s} else {}) + if u in x then {u} else {};
    assert y == (if s in x then {} else {s}) + if u in x then {} else {u};
  }

  lemma SplitThree(x: set<Byte>, y: set<Byte>, a: Byte, b: Byte, c: Byte)
    requires x + y == {a, b, c} && x !! y && x != {} && y != {} && a != b && b != c && a != c
    ensures (x == {a, b} && y == {c}) || (x == {a, c} && y == {b}) || (x == {b, c} && y == {a}) ||
      (y == {a, b} && x == {c}) || (y == {a, c} && x == {b}) || (y == {b, c} && x == {a})
  {
    assert x == (if a in x then {a} else {}) + (if b in x then {b} else {}) + if c in x then {c} else {};
    assert y == (if a in x then {} else {a}) + (if b in x then {} else {b}) + if c in x then {} else {c};
  }

  lemma LeafHasOne(t: CodeTree, s: Byte, u: Byte)
    requires Symbols(t) >= {s, u} && s != u
    ensures t.Node?
  {
    assert s in Symbols(t) && u in Symbols(t);
  }

  lemma {:induction false} TwoLeaves(t: CodeTree, s: Byte, u: Byte, w: Counts)
    requires Counted(t, w) && Distinct(t) && LighterFirst(t) && Symbols(t) == {s, u} && s != u
    ensures s in w && u in w && (w[s] < w[u] ==> t == Pair(s, u, w))
  {
    LeafHasOne(t, s, u);
    NonEmpty(t.zero);
    NonEmpty(t.one);
    SplitTwo(Symbols(t.zero), Symbols(t.one), s, u);
    if Symbols(t.zero) == {s} {
      OneLeaf(t.zero, s, w);
      OneLeaf(t.one, u, w);
    } else {
      OneLeaf(t.zero, u, w);
      OneLeaf(t.one, s, w);
    }
  }

  /** Two of the symbols are together in one child. */
  ghost predicate Together(t: CodeTree, s: Byte, u: Byte, v: Byte, w: Counts) {
    s in w && u in w && v in w && (t == Node(Pair(s, u, w), One(v, w)) || t == Node(One(v, w), Pair(s, u, w)))
  }

  lemma {:induction false} ThreeLeaves(t: CodeTree, a: Byte, b: Byte, c: Byte, w: Counts)
    requires Counted(t, w) && Distinct(t) && LighterFirst(t) && Symbols(t) == {a, b, c}
    requires a != b && b != c && a != c && {a, b, c} <= w.Keys && w[a] < w[b] < w[c]
    ensures Together(t, a, b, c, w) || Together(t, a, c, b, w) || Together(t, b, c, a, w)
  {
    hide Counted, Distinct, LighterFirst, Symbols;
    assert t.Node? by {
      LeafHasOne(t, a, b);
    }
    Children(t, w);
    SplitThree(Symbols(t.zero), Symbols(t.one), a, b, c);
    var x := if |Symbols(t.zero)| == 2 then t.zero else t.one;
    var y := if |Symbols(t.zero)| == 2 then t.one else t.zero;
    if Symbols(x) == {a, b} {
      TwoLeaves(x, a, b, w);
      OneLeaf(y, c, w);
    } else if Symbols(x) == {a, c} {
      TwoLeaves(x, a, c, w);
      OneLeaf(y, b, w);
    } else {
      TwoLeaves(x, b, c, w);
      OneLeaf(y, a, w);
    }
  }

  lemma {:induction false} Children(t: CodeTree, w: Counts)
    requires Counted(t, w) && Distinct(t) && LighterFirst(t) && t.Node?
    ensures Symbols(t) == Symbols(t.zero) + Symbols(t.one) && Symbols(t.zero) !! Symbols(t.one)
    ensures Symbols(t.zero) != {} && Symbols(t.one) != {}
    ensures Counted(t.zero, w) && Distinct(t.zero) && LighterFirst(t.zero)
    ensures Counted(t.one, w) && Distinct(t.one) && LighterFirst(t.one)
  {
    NonEmpty(t.zero);
    NonEmpty(t.one);
  }

  function Join(a: Byte, b: Byte, c: Byte, w: Counts): CodeTree
    requires a in w && b in w && c in w
  {
    Node(Pair(a, b, w), One(c, w))
  }

  /** Of these trees only one is as cheap as joining the two rarest symbols first, if those are rarer than the third. */
  lemma {:induction false} CheapestOfThree(t: CodeTree, a: Byte, b: Byte, c: Byte, w: Counts)
    requires {a, b, c} <= w.Keys && w[a] < w[b] < w[c] && w[a] + w[b] < w[c] && LighterFirst(t)
    requires Together(t, a, b, c, w) || Together(t, a, c, b, w) || Together(t, b, c, a, w)
    ensures t == Join(a, b, c, w) || Cost(t) > Cost(Join(a, b, c, w))
    ensures multiset(Leaves(t)) == multiset(Leaves(Join(a, b, c, w)))
  {
    hide Cost, Leaves, LighterFirst, One, Pair;
    CostOfThree(a, b, c, w);
    CostOfThree(a, c, b, w);
    CostOfThree(b, c, a, w);
  }

  lemma PairIs(s: Byte, u: Byte, w: Counts)
    requires s in w && u in w
    ensures Weight(Pair(s, u, w)) == Cost(Pair(s, u, w)) == w[s] + w[u]
    ensures multiset(Leaves(Pair(s, u, w))) == multiset{(s, w[s]), (u, w[u])}
  {
    assert Leaves(Pair(s, u, w)) == [(s, w[s]), (u, w[u])];
  }

  lemma OneIs(s: Byte, w: Counts)
    requires s in w
    ensures Weight(One(s, w)) == w[s] && Cost(One(s, w)) == 0 && multiset(Leaves(One(s, w))) == multiset{(s, w[s])}
  {
  }

  lemma {:induction false} NodeIs(l: CodeTree, r: CodeTree)
    ensures Weight(Node(l, r)) == Weight(l) + Weight(r) && Cost(Node(l, r)) == Cost(l) + Cost(r) + Weight(l) + Weight(r)
    ensures multiset(Leaves(Node(l, r))) == multiset(Leaves(l)) + multiset(Leaves(r))
    ensures LighterFirst(Node(l, r)) ==> Weight(l) <= Weight(r)
  {
  }

  lemma {:induction false} CostOfThree(s: Byte, u: Byte, v: Byte, w: Counts)
    requires s in w && u in w && v in w
    ensures var t, x := Node(Pair(s, u, w), One(v, w)), Node(One(v, w), Pair(s, u, w));
      Cost(t) == Cost(x) == 2 * w[s] + 2 * w[u] + w[v] &&
      (LighterFirst(t) ==> w[s] + w[u] <= w[v]) && (LighterFirst(x) ==> w[v] <= w[s] + w[u]) &&
      multiset(Leaves(t)) == multiset(Leaves(x)) == multiset{(s, w[s]), (u, w[u]), (v, w[v])}
  {
    hide *;
    PairIs(s, u, w);
    OneIs(v, w);
    NodeIs(Pair(s, u, w), One(v, w));
    NodeIs(One(v, w), Pair(s, u, w));
  }

  // ---- the tree of the text ----

  const COUNTS: Counts := map[A := 1, B := 2, C := 4]

  lemma TextCounts()
    ensures multiset(TEXT)[A] == 1 && multiset(TEXT)[B] == 2 && multiset(TEXT)[C] == 4
    ensures forall s :: s in TEXT <==> s in {A, B, C}
  {
  }

  lemma {:induction false} LeavesCount(t: CodeTree, w: Counts)
    requires forall x :: x in Leaves(t) ==> x.0 in w && x.1 == w[x.0]
    ensures Counted(t, w)
  {
    match t
    case Leaf(s, n) => assert (s, n) in Leaves(t);
    case Node(l, r) =>
      LeavesCount(l, w);
      LeavesCount(r, w);
  }

  lemma {:induction false} LighterInAll(t: CodeTree)
    requires forall p :: IsPath(t, p) && At(t, p).Node? ==> Weight(At(t, p).zero) <= Weight(At(t, p).one)
    ensures LighterFirst(t)
  {
    match t
    case Leaf(_, _) =>
    case Node(l, r) =>
      assert At(t, []) == t;
      forall b, p | IsPath(Child(t, b), p) && At(Child(t, b), p).Node?
        ensures Weight(At(Child(t, b), p).zero) <= Weight(At(Child(t, b), p).one)
      {
        var q := [b] + p;
        assert q[1..] == p && IsPath(t, q) && At(t, q) == At(Child(t, b), p);
      }
      assert Child(t, false) == l && Child(t, true) == r;
      LighterInAll(l);
      LighterInAll(r);
  }

  lemma FrequencyOf(x: (Byte, nat))
    requires x in Frequencies(TEXT)
    ensures x.0 in COUNTS && x.1 == COUNTS[x.0]
  {
    TextCounts();
  }

  lemma UseOptimal(t: CodeTree, items: seq<(Byte, nat)>, u: CodeTree)
    requires Optimal(t, items) && multiset(Leaves(t)) == multiset(Leaves(u))
    ensures Cost(t) <= Cost(u) && Distinct(t)
  {
    hide Leaves, Cost;
    assert TreeOver(u, items);
  }

  lemma LeavesFromItems(t: CodeTree, items: seq<(Byte, nat)>)
    requires Optimal(t, items)
    ensures forall x :: x in Leaves(t) ==> x in items
  {
    assert forall x :: x in Leaves(t) ==> x in multiset(Leaves(t));
  }

  /** There is one cheapest tree for the text with the lighter child first. */
  lemma {:induction false} OneTree(t: CodeTree)
    requires CodesText(t, TEXT) && LighterFirst(t)
    ensures t == TREE
  {
    hide *;
    TextCounts();
    var items := ItemsOf(t);
    LeavesFromItems(t, items);
    forall x | x in Leaves(t) ensures x.0 in COUNTS && x.1 == COUNTS[x.0] {
      FrequencyOf(x);
    }
    LeavesCount(t, COUNTS);
    TextSymbols(t, TEXT);
    assert Symbols(t) == {A, B, C};
    CountsOf();
    ThreeLeaves(t, A, B, C, COUNTS);
    CheapestOfThree(t, A, B, C, COUNTS);
    UseOptimal(t, items, Join(A, B, C, COUNTS));
  }

  lemma CountsOf()
    ensures A != B && B != C && A != C && {A, B, C} <= COUNTS.Keys
    ensures COUNTS[A] == 1 && COUNTS[B] == 2 && COUNTS[C] == 4 && Join(A, B, C, COUNTS) == TREE
  {
  }

  lemma ItemsOf(t: CodeTree) returns (items: seq<(Byte, nat)>)
    requires CodesText(t, TEXT)
    ensures Optimal(t, items) && forall x :: x in items ==> x in Frequencies(TEXT)
  {
    hide Optimal, Frequencies;
    items :| Optimal(t, items) && (set x | x in items) == Frequencies(TEXT);
  }

  // ---- its archive ----

  lemma {:induction false} SampleCodes()
    ensures Symbols(TREE) == {A, B, C}
    ensures CodeOf(TREE, A) == [false, false] && CodeOf(TREE, B) == [false, true] && CodeOf(TREE, C) == [true]
  {
    var l := Node(Leaf(A, 1), Leaf(B, 2));
    assert Symbols(l) == {A, B} && Symbols(TREE) == {A, B, C};
    assert CodeOf(l, A) == [false] && CodeOf(l, B) == [true];
  }

  lemma OnlyThree(es: seq<Entry>, x: Entry, y: Entry, z: Entry, i: nat, j: nat, k: nat)
    requires i < j < k < |es| && es[i] == x && es[j] == y && es[k] == z
    requires forall n :: 0 <= n < |es| ==> es[n] == x || es[n] == y || es[n] == z
    requires forall m, n :: 0 <= m < n < |es| ==> es[m] != es[n]
    ensures es == [x, y, z]
  {
    assert forall n :: 0 <= n < |es| && es[n] == x ==> n == i;
    assert forall n :: 0 <= n < |es| && es[n] == y ==> n == j;
    assert forall n :: 0 <= n < |es| && es[n] == z ==> n == k;
    assert es[0] == x;
    assert es[1] == y;
    assert es[2] == z;
    assert es[|es| - 1] == z;
  }

  lemma {:induction false} ListedEntry(es: seq<Entry>, s: Byte) returns (i: nat)
    requires Lists(es, TREE) && s in Symbols(TREE)
    ensures i < |es| && es[i] == (s, CodeOf(TREE, s))
  {
    hide CodeOf, Symbols;
    i :| 0 <= i < |es| && es[i].0 == s;
  }

  lemma {:induction false} ListsThree(es: seq<Entry>, n: nat)
    requires Lists(es, TREE) && n < |es|
    ensures es[n] == (A, CodeOf(TREE, A)) || es[n] == (B, CodeOf(TREE, B)) || es[n] == (C, CodeOf(TREE, C))
  {
    hide CodeOf, Symbols;
    SampleCodes();
    assert es[n].0 in {A, B, C};
  }

  lemma {:induction false} ListedEntries(es: seq<Entry>)
    requires Lists(es, TREE) && forall j, k :: 0 <= j < k < |es| ==> Index(es[j].0) < Index(es[k].0)
    ensures es == [(A, [false, false]), (B, [false, true]), (C, [true])]
  {
    hide Index, CodeOf, Symbols, Lists;
    SampleCodes();
    var i := ListedEntry(es, A);
    var j := ListedEntry(es, B);
    var k := ListedEntry(es, C);
    forall n | 0 <= n < |es| {
      ListsThree(es, n);
    }
    IndexIsNumber(A);
    IndexIsNumber(B);
    IndexIsNumber(C);
    OnlyThree(es, es[i], es[j], es[k], i, j, k);
  }

  ghost predicate HasBits(text: seq<Byte>, bits: Bits) {
    (forall i :: 0 <= i < |text| ==> text[i] in Symbols(TREE)) && TextBits(TREE, text) == bits
  }

  lemma {:induction false} SampleBegins()
    ensures HasBits([A, B, B], [false, false, false, true, false, true])
  {
    hide *;
    NoText();
    SampleCodes();
    OneMore([], A, [A], [], [false, false]);
    OneMore([A], B, [A, B], [false, false], [false, false, false, true]);
    OneMore([A, B], B, [A, B, B], [false, false, false, true], [false, false, false, true, false, true]);
  }

  lemma {:induction false} SampleEnds(text: seq<Byte>, bits: Bits)
    requires HasBits(text, bits)
    ensures HasBits(text + [C, C], bits + [true, true])
  {
    hide *;
    SampleCodes();
    OneMore(text, C, text + [C], bits, bits + [true]);
    OneMore(text + [C], C, text + [C, C], bits + [true], bits + [true, true]);
  }

  lemma {:induction false} SampleText()
    ensures HasBits(TEXT, [false, false, false, true, false, true, true, true, true, true])
  {
    hide *;
    var text, bits := [A, B, B], [false, false, false, true, false, true];
    SampleBegins();
    SampleEnds(text, bits);
    SampleEnds(text + [C, C], bits + [true, true]);
    TextIs();
    assert text + [C, C] + [C, C] == [A, B, B, C, C, C, C];
    assert bits + [true, true] + [true, true] == [false, false, false, true, false, true, true, true, true, true];
  }

  lemma {:induction false} NoText()
    ensures HasBits([], [])
  {
  }

  lemma TextIs()
    ensures TEXT == [A, B, B, C, C, C, C]
  {
  }

  lemma {:induction false} OneMore(text: seq<Byte>, c: Byte, whole: seq<Byte>, bits: Bits, more: Bits)
    requires HasBits(text, bits) && c in Symbols(TREE) && whole == text + [c] && more == bits + CodeOf(TREE, c)
    ensures HasBits(whole, more)
  {
    hide Symbols, CodeOf, TextBits;
    MoreText(TREE, text, c);
  }

  lemma {:induction false} NumberIs(n: nat, b: Byte)
    requires n < 256 && b.v as nat == n
    ensures ByteFrom(n) == b
  {
    hide ByteFrom, Index;
    NumberOfByte(n);
    IndexIsNumber(b);
    IndexIsUnique(ByteFrom(n), b);
  }

  lemma {:induction false} SampleNumbers()
    ensures Net32(3) == [ZERO, ZERO, ZERO, Byte(3)] && Net32(7) == [ZERO, ZERO, ZERO, Byte(7)]
    ensures ByteFrom(1) == ONE && ByteFrom(2) == Byte(2)
  {
    hide ByteFrom;
    NumberIs(0, ZERO);
    NumberIs(1, ONE);
    NumberIs(2, Byte(2));
    NumberIs(3, Byte(3));
    NumberIs(7, Byte(7));
  }

  /** The byte with these bits, the least significant one first. */
  lemma {:induction false} PackedByte(bs: Bits, b: Byte)
    requires 0 < |bs| <= 8 && forall j :: 0 <= j < 8 ==> BitOf(b, j) == (j < |bs| && bs[j])
    ensures ByteOf(bs) == b
  {
    hide BitOf, ByteOf;
    forall j | 0 <= j < 8 ensures BitsOf(ByteOf(bs))[j] == BitsOf(b)[j] {
      ByteOfBits(bs, j);
    }
    SameBits(ByteOf(bs), b);
  }

  lemma {:induction false} OneByte(bs: Bits, b: Byte)
    requires 0 < |bs| < 8 && forall j :: 0 <= j < 8 ==> BitOf(b, j) == (j < |bs| && bs[j])
    ensures Pack(bs) == [b]
  {
    hide *;
    PackedByte(bs, b);
    ShortPack(bs);
  }

  lemma {:induction false} ShortPack(bs: Bits)
    ensures 0 < |bs| < 8 ==> Pack(bs) == [ByteOf(bs)]
    ensures 8 < |bs| < 16 ==> Pack(bs) == [ByteOf(bs[..8]), ByteOf(bs[8..])]
  {
    hide ByteOf;
    if 0 < |bs| < 8 {
      assert Rest(bs) == bs;
    } else if 8 < |bs| < 16 {
      assert Rest(bs) == bs[8..] && FullBytes(bs) == [ByteOf(bs[0..8])] && bs[0..8] == bs[..8];
    }
  }

  lemma {:induction false} TwoBytes(bs: Bits, b: Byte, c: Byte)
    requires 8 < |bs| < 16 && forall j :: 0 <= j < 8 ==> BitOf(b, j) == bs[j]
    requires forall j :: 0 <= j < 8 ==> BitOf(c, j) == (j < |bs| - 8 && bs[8 + j])
    ensures Pack(bs) == [b, c]
  {
    hide *;
    PackedByte(bs[..8], b);
    PackedByte(bs[8..], c);
    ShortPack(bs);
  }

  lemma {:induction false} SamplePacked()
    ensures Pack([false, false]) == [ZERO] && Pack([false, true]) == [Byte(2)] && Pack([true]) == [ONE]
    ensures Pack([false, false, false, true, false, true, true, true, true, true]) == [Byte(232), Byte(3)]
  {
    hide Pack;
    OneByte([false, false], ZERO);
    OneByte([false, true], Byte(2));
    OneByte([true], ONE);
    TwoBytes([false, false, false, true, false, true, true, true, true, true], Byte(232), Byte(3));
  }

  // What the encoder writes for the text: the number of symbols and of bytes, the three entries, the data. By the
  // contract of HuffmanEncode.EncodeFile its output meets the requirements.
  lemma {:induction false} SampleArchive(file: seq<Byte>, t: CodeTree)
    requires ArchiveOf(file, TEXT, t, EntriesUpTo(t, MAX_SYMBOLS))
    requires forall p :: IsPath(t, p) && At(t, p).Node? ==> Weight(At(t, p).zero) <= Weight(At(t, p).one)
    ensures file == [ZERO, ZERO, ZERO, Byte(3), ZERO, ZERO, ZERO, Byte(7)]
      + [A, Byte(2), ZERO, B, Byte(2), Byte(2), C, ONE, ONE] + [Byte(232), Byte(3)]
  {
    hide *;
    var es := EntriesUpTo(t, MAX_SYMBOLS);
    UseSample(file, t, es);
    LighterInAll(t);
    OneTree(t);
    AllEntries(t);
    ListedEntries(es);
    SampleText();
    UseBits(TEXT, [false, false, false, true, false, true, true, true, true, true]);
    SampleNumbers();
    SamplePacked();
    SampleTable();
  }

  lemma UseBits(text: seq<Byte>, bits: Bits)
    requires HasBits(text, bits)
    ensures (forall i :: 0 <= i < |text| ==> text[i] in Symbols(TREE)) && TextBits(TREE, text) == bits
  {
    hide Symbols, TextBits;
  }

  lemma {:induction false} UseSample(file: seq<Byte>, t: CodeTree, es: seq<Entry>)
    requires ArchiveOf(file, TEXT, t, es)
    ensures CodesText(t, TEXT) && |es| < TWO32 && forall i :: 0 <= i < |TEXT| ==> TEXT[i] in Symbols(t)
    ensures file == Net32(|es|) + Net32(7) + TableBytes(es) + Pack(TextBits(t, TEXT))
  {
    hide CodesText, Lists, Symbols, TableBytes, Pack, TextBits, Net32;
  }

  lemma {:induction false} SampleTable()
    ensures TableBytes([(A, [false, false]), (B, [false, true]), (C, [true])])
         == [A, Byte(2), ZERO, B, Byte(2), Byte(2), C, ONE, ONE]
  {
    hide ByteFrom, Pack, TableBytes;
    SampleNumbers();
    SamplePacked();
    NoTable();
    MoreTable([], (A, [false, false]));
    MoreTable([(A, [false, false])], (B, [false, true]));
    MoreTable([(A, [false, false]), (B, [false, true])], (C, [true]));
    assert [] + [(A, [false, false])] == [(A, [false, false])];
    assert [(A, [false, false])] + [(B, [false, true])] == [(A, [false, false]), (B, [false, true])];
    assert [(A, [false, false]), (B, [false, true])] + [(C, [true])]
      == [(A, [false, false]), (B, [false, true]), (C, [true])];
  }

  lemma {:induction false} NoTable()
    ensures TableBytes([]) == []
  {
  }

  lemma {:induction false} MoreTable(es: seq<Entry>, e: Entry)
    ensures TableBytes(es + [e]) == TableBytes(es) + EntryBytes(e)
  {
    hide EntryBytes;
    assert (es + [e])[..|es|] == es;
  }
}
