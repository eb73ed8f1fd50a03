module HuffmanCode {
  // Huffman codes as root-to-leaf paths of a merge tree, and their optimality.

  import opened Sums
  import opened MergeCost
  import opened MergeTree
  import opened BitBytes

  type CodeTree = Tree<Byte>

  function Child(t: CodeTree, b: bool): CodeTree
    requires t.Node?
  {
    if b then t.one else t.zero
  }

  predicate IsPath(t: CodeTree, p: Bits) {
    p == [] || (t.Node? && IsPath(Child(t, p[0]), p[1..]))
  }

  function At(t: CodeTree, p: Bits): CodeTree
    requires IsPath(t, p)
  {
    if p == [] then t else At(Child(t, p[0]), p[1..])
  }

  /** The order of the two children, at every place in the tree. */
  lemma {:induction false} LighterAt(t: CodeTree, p: Bits)
    requires LighterFirst(t) && IsPath(t, p)
    ensures LighterFirst(At(t, p)) && (At(t, p).Node? ==> Weight(At(t, p).zero) <= Weight(At(t, p).one))
    decreases |p|
  {
    if p != [] {
      LighterAt(Child(t, p[0]), p[1..]);
    }
  }

  lemma {:induction false} LighterEverywhere(t: CodeTree)
    requires LighterFirst(t)
    ensures forall p :: IsPath(t, p) && At(t, p).Node? ==> Weight(At(t, p).zero) <= Weight(At(t, p).one)
  {
    hide *;
    forall p | IsPath(t, p) && At(t, p).Node? ensures Weight(At(t, p).zero) <= Weight(At(t, p).one) {
      LighterAt(t, p);
    }
  }

  /** p leads from the root to a leaf that holds s. */
  predicate LeadsTo(t: CodeTree, p: Bits, s: Byte) {
    IsPath(t, p) && At(t, p).Leaf? && At(t, p).symbol == s
  }

  function Symbols(t: CodeTree): set<Byte> {
    match t
    case Leaf(s, _) => {s}
    case Node(l, r) => Symbols(l) + Symbols(r)
  }

  /** No symbol is at two leaves. */
  predicate Distinct(t: CodeTree) {
    match t
    case Leaf(_, _) => true
    case Node(l, r) => Distinct(l) && Distinct(r) && Symbols(l) !! Symbols(r)
  }

  /** The code of s: its root-to-leaf path. */
  function CodeOf(t: CodeTree, s: Byte): (p: Bits)
    requires s in Symbols(t)
    ensures |p| <= Height(t)
  {
    match t
    case Leaf(_, _) => []
    case Node(l, r) => if s in Symbols(l) then [false] + CodeOf(l, s) else [true] + CodeOf(r, s)
  }

  lemma {:induction false} CodeLeads(t: CodeTree, s: Byte)
    requires s in Symbols(t)
    ensures LeadsTo(t, CodeOf(t, s), s)
  {
    match t
    case Leaf(_, _) =>
    case Node(l, r) =>
      if s in Symbols(l) {
        CodeLeads(l, s);
        assert CodeOf(t, s)[1..] == CodeOf(l, s);
      } else {
        CodeLeads(r, s);
        assert CodeOf(t, s)[1..] == CodeOf(r, s);
      }
  }

  lemma {:induction false} OnlyCodeLeads(t: CodeTree, p: Bits, s: Byte)
    requires Distinct(t) && LeadsTo(t, p, s)
    ensures s in Symbols(t) && p == CodeOf(t, s)
  {
    match t
    case Leaf(_, _) =>
    case Node(_, _) =>
      OnlyCodeLeads(Child(t, p[0]), p[1..], s);
      assert p == [p[0]] + p[1..];
  }

  /** One more step down. */
  lemma {:induction false} PathStep(t: CodeTree, p: Bits, b: bool)
    ensures IsPath(t, p + [b]) <==> IsPath(t, p) && At(t, p).Node?
    ensures IsPath(t, p + [b]) ==> At(t, p + [b]) == Child(At(t, p), b)
  {
    if p == [] {
      assert (p + [b])[1..] == [];
    } else {
      assert (p + [b])[0] == p[0] && (p + [b])[1..] == p[1..] + [b];
      if t.Node? {
        PathStep(Child(t, p[0]), p[1..], b);
      }
    }
  }

  /** Every prefix of a path is a path, and a proper prefix ends at an inner node. */
  lemma {:induction false} PathPrefix(t: CodeTree, p: Bits, q: Bits)
    requires IsPath(t, q) && p <= q
    ensures IsPath(t, p) && (p != q ==> At(t, p).Node?)
  {
    if p != [] {
      assert p[1..] <= q[1..];
      PathPrefix(Child(t, q[0]), p[1..], q[1..]);
      assert p != q ==> p[1..] != q[1..] by {
        assert p == [q[0]] + p[1..] && q == [q[0]] + q[1..];
      }
    }
  }

  /** Every path can be completed to the code of some symbol. */
  lemma {:induction false} PathExtends(t: CodeTree, p: Bits) returns (s: Byte)
    requires Distinct(t) && IsPath(t, p)
    ensures s in Symbols(t) && p <= CodeOf(t, s)
  {
    match t
    case Leaf(x, _) => s := x;
    case Node(l, r) =>
      if p == [] {
        s := PathExtends(l, []);
      } else {
        s := PathExtends(Child(t, p[0]), p[1..]);
        assert p == [p[0]] + p[1..];
      }
  }

  /** Huffman codes are prefix free. */
  lemma {:induction false} CodesPrefixFree(t: CodeTree, s: Byte, u: Byte)
    requires Distinct(t) && s in Symbols(t) && u in Symbols(t) && CodeOf(t, s) <= CodeOf(t, u)
    ensures s == u
  {
    CodeLeads(t, s);
    CodeLeads(t, u);
    PathPrefix(t, CodeOf(t, s), CodeOf(t, u));
  }

  lemma {:induction false} HeightBelowLeaves(t: CodeTree)
    ensures Height(t) < |Leaves(t)|
  {
    match t
    case Leaf(_, _) =>
    case Node(l, r) =>
      HeightBelowLeaves(l);
      HeightBelowLeaves(r);
  }

  // ---- symbols and leaves ----

  lemma {:induction false} SymbolsAreLeaves(t: CodeTree)
    ensures forall s :: s in Symbols(t) <==> exists w :: (s, w) in Leaves(t)
  {
    match t
    case Leaf(s, w) => assert (s, w) in Leaves(t);
    case Node(l, r) =>
      SymbolsAreLeaves(l);
      SymbolsAreLeaves(r);
      assert forall x :: x in Leaves(t) <==> x in Leaves(l) || x in Leaves(r);
  }

  /** No symbol occurs in two of the items. */
  predicate DistinctItems(items: seq<(Byte, nat)>) {
    forall i, j :: 0 <= i < j < |items| ==> items[i].0 != items[j].0
  }

  lemma {:induction false} DistinctLeaves(t: CodeTree)
    requires DistinctItems(Leaves(t))
    ensures Distinct(t)
  {
    match t
    case Leaf(_, _) =>
    case Node(l, r) =>
      var n := |Leaves(l)|;
      assert forall i :: 0 <= i < n ==> Leaves(l)[i] == Leaves(t)[i];
      assert forall i :: 0 <= i < |Leaves(r)| ==> Leaves(r)[i] == Leaves(t)[n + i];
      DistinctLeaves(l);
      DistinctLeaves(r);
      SymbolsAreLeaves(l);
      SymbolsAreLeaves(r);
      forall s | s in Symbols(l) ensures s !in Symbols(r) {
        var w :| (s, w) in Leaves(l);
        assert forall i, j :: 0 <= i < n && 0 <= j < |Leaves(r)| ==> Leaves(l)[i].0 != Leaves(r)[j].0;
      }
  }

  function IsSymbol(s: Byte): ((Byte, nat)) -> nat {
    (p: (Byte, nat)) => if p.0 == s then 1 else 0
  }

  lemma {:induction false} DistinctCount(items: seq<(Byte, nat)>, s: Byte)
    requires DistinctItems(items)
    ensures Sum(items, IsSymbol(s)) <= 1
    ensures (forall k :: 0 <= k < |items| ==> items[k].0 != s) ==> Sum(items, IsSymbol(s)) == 0
  {
    if items != [] {
      DistinctCount(items[1..], s);
      assert forall k :: 0 < k < |items| ==> items[1..][k - 1] == items[k];
    }
  }

  lemma {:induction false} TwoCount(items: seq<(Byte, nat)>, i: nat, j: nat)
    requires i < j < |items|
    ensures items[i].0 == items[j].0 ==> Sum(items, IsSymbol(items[i].0)) >= 2
  {
    var f := IsSymbol(items[i].0);
    SumWithout(items, i, f);
    var rest := items[..i] + items[i + 1..];
    assert rest[j - 1] == items[j];
    SumWithout(rest, j - 1, f);
  }

  /** Having distinct symbols does not depend on the order of the items. */
  lemma DistinctPermutation(a: seq<(Byte, nat)>, b: seq<(Byte, nat)>)
    requires multiset(a) == multiset(b) && DistinctItems(a)
    ensures DistinctItems(b)
  {
    forall i, j | 0 <= i < j < |b| ensures b[i].0 != b[j].0 {
      TwoCount(b, i, j);
      DistinctCount(a, b[i].0);
      SumPermutation(a, b, IsSymbol(b[i].0));
    }
  }

  // ---- optimality ----

  function TimesLength(code: Byte -> Bits): ((Byte, nat)) -> nat {
    (p: (Byte, nat)) => Product((p.1, |code(p.0)|))
  }

  /** How many bits the items take when every symbol is written with the given code. */
  function CodedLength(items: seq<(Byte, nat)>, code: Byte -> Bits): nat {
    Sum(items, TimesLength(code))
  }

  function TreeCode(t: CodeTree): Byte -> Bits {
    s => if s in Symbols(t) then CodeOf(t, s) else []
  }

  lemma {:induction false} DepthIsCodeLength(t: CodeTree, d: nat, k: nat)
    requires Distinct(t) && k < |Leaves(t)|
    ensures |Depths(t, d)| == |Leaves(t)|
    ensures Leaves(t)[k].0 in Symbols(t)
    ensures Depths(t, d)[k] == d + |CodeOf(t, Leaves(t)[k].0)|
  {
    WeightsOfLeaves(t);
    match t
    case Leaf(_, _) =>
    case Node(l, r) =>
      WeightsOfLeaves(l);
      WeightsOfLeaves(r);
      if k < |Leaves(l)| {
        DepthIsCodeLength(l, d + 1, k);
      } else {
        DepthIsCodeLength(r, d + 1, k - |Leaves(l)|);
      }
  }

  lemma {:induction false} CodedLengthIsDot(items: seq<(Byte, nat)>, code: Byte -> Bits)
    ensures CodedLength(items, code) == Dot(ItemWeights(items), Lengths(CodeWords(items, code)))
  {
    var z := Zip(ItemWeights(items), Lengths(CodeWords(items, code)));
    if items == [] {
    } else {
      CodedLengthIsDot(items[1..], code);
      assert z[1..] == Zip(ItemWeights(items[1..]), Lengths(CodeWords(items[1..], code)));
      assert z[0] == (items[0].1, |code(items[0].0)|);
    }
  }

  function CodeWords(items: seq<(Byte, nat)>, code: Byte -> Bits): seq<Bits> {
    seq(|items|, k requires 0 <= k < |items| => code(items[k].0))
  }

  /** The tree costs what its code writes. */
  lemma {:induction false} TreeCostIsCodedLength(t: CodeTree, items: seq<(Byte, nat)>)
    requires Distinct(t) && TreeOver(t, items)
    ensures CodedLength(items, TreeCode(t)) == Cost(t)
  {
    var code := TreeCode(t);
    SumPermutation(items, Leaves(t), TimesLength(code));
    CodedLengthIsDot(Leaves(t), code);
    WeightsOfLeaves(t);
    forall k | 0 <= k < |Leaves(t)| ensures Depths(t, 0)[k] == Lengths(CodeWords(Leaves(t), code))[k] {
      DepthIsCodeLength(t, 0, k);
    }
    assert Depths(t, 0) == Lengths(CodeWords(Leaves(t), code));
    CostIsWeightedDepth(t, 0);
  }

  /** No prefix code writes the items in fewer bits than a tree whose cost is a lower bound. */
  lemma {:induction false} NoPrefixCodeIsShorter(t: CodeTree, items: seq<(Byte, nat)>, code: Byte -> Bits)
    requires Distinct(t) && TreeOver(t, items) && LowerBound(ItemWeights(items), Cost(t))
    requires PrefixFree(CodeWords(items, code))
    ensures CodedLength(items, TreeCode(t)) <= CodedLength(items, code)
  {
    TreeCostIsCodedLength(t, items);
    CodedLengthIsDot(items, code);
    var words := CodeWords(items, code);
    var L := LongestWord(words);
    PrefixCodeFits(words, L);
  }

  lemma {:induction false} LongestWord(words: seq<Bits>) returns (L: nat)
    ensures forall i :: 0 <= i < |words| ==> |words[i]| <= L
  {
    if words == [] {
      L := 0;
    } else {
      var m := LongestWord(words[1..]);
      L := if |words[0]| >= m then |words[0]| else m;
      assert forall i :: 0 < i < |words| ==> words[i] == words[1..][i - 1];
    }
  }
}
