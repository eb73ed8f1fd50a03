// build_symcode, and the sorting of the frequency table, in coursedesign/zip/program/huffman.c. The recursion
// goes through the tree of heap nodes and enters the code of each leaf, which new_code reads off by climbing to
// the root. The table is sorted as qsort would sort it, but of the result only this is promised: it is a
// permutation, ascending by count, with the null entries at the end.
module HuffmanBuild {
  import opened Sums
  import opened BitBytes
  import opened MergeCost
  import opened MergeTree
  import opened HuffmanCode
  import opened HuffmanTree

  const MAX_SYMBOLS := 256

  // ---- the code table ----

  /** What the table holds for the symbol s. */
  function CodeEntry(t: CodeTree, s: Byte): Option<Code> {
    if s in Symbols(t) then Some(MakeCode(CodeOf(t, s))) else None
  }

  type Table = seq<Option<Code>>

  /** The table after entering the codes of all leaves of sub, whose root is at the path p. */
  ghost predicate Entered(after: Table, before: Table, sub: CodeTree, p: Bits) {
    |after| == |before| == MAX_SYMBOLS &&
    forall s: Byte ::
      after[Index(s)] == (if s in Symbols(sub) then Some(MakeCode(p + CodeOf(sub, s))) else before[Index(s)])
  }

  lemma EnteredLeaf(before: Table, sub: CodeTree, p: Bits)
    requires |before| == MAX_SYMBOLS && sub.Leaf?
    ensures Entered(before[Index(sub.symbol) := Some(MakeCode(p))], before, sub, p)
  {
    hide MakeCode, Index;
    forall s: Byte
      ensures Index(s) == Index(sub.symbol) ==> s == sub.symbol
    {
      IndexIsUnique(s, sub.symbol);
    }
    assert p + [] == p;
  }

  lemma {:induction false} EnteredBoth(after: Table, mid: Table, before: Table, sub: CodeTree, p: Bits)
    requires sub.Node? && Distinct(sub)
    requires Entered(mid, before, sub.zero, p + [false]) && Entered(after, mid, sub.one, p + [true])
    ensures Entered(after, before, sub, p)
  {
    hide MakeCode, Index, CodeOf;
    forall s: Byte
      ensures after[Index(s)] ==
        (if s in Symbols(sub) then Some(MakeCode(p + CodeOf(sub, s))) else before[Index(s)])
    {
      CodeBelow(sub, s, p);
    }
  }

  lemma {:induction false} CodeBelow(sub: CodeTree, s: Byte, p: Bits)
    requires sub.Node? && Distinct(sub)
    ensures s in Symbols(sub.zero) ==>
      s in Symbols(sub) && s !in Symbols(sub.one) && p + [false] + CodeOf(sub.zero, s) == p + CodeOf(sub, s)
    ensures s in Symbols(sub.one) ==>
      s in Symbols(sub) && s !in Symbols(sub.zero) && p + [true] + CodeOf(sub.one, s) == p + CodeOf(sub, s)
  {
    if s in Symbols(sub.zero) {
      assert CodeOf(sub, s) == [false] + CodeOf(sub.zero, s);
    } else if s in Symbols(sub.one) {
      assert CodeOf(sub, s) == [true] + CodeOf(sub.one, s);
    }
  }

  /** root is the node at the path p of a finished tree. */
  ghost predicate NodeAt(root: HNode, m: PathMap, t: CodeTree, p: Bits)
    reads m.Values
  {
    OnPath(root, m, t, p) && IsPath(t, p) && Distinct(At(t, p))
  }

  lemma {:induction false} LeafNode(root: HNode, m: PathMap, t: CodeTree, p: Bits)
    requires NodeAt(root, m, t, p)
    ensures IsPath(t, p) && root.leaf == At(t, p).Leaf?
    ensures root.leaf ==> root.symbol == At(t, p).symbol
  {
    assert Holds(m[p], At(t, p));
  }

  lemma {:induction false} ChildNodes(root: HNode, m: PathMap, t: CodeTree, p: Bits)
    requires NodeAt(root, m, t, p) && !root.leaf
    ensures IsPath(t, p) && At(t, p).Node? && Distinct(At(t, p))
    ensures root.zero != null && NodeAt(root.zero, m, t, p + [false]) && IsPath(t, p + [false])
    ensures root.one != null && NodeAt(root.one, m, t, p + [true]) && IsPath(t, p + [true])
    ensures At(t, p + [false]) == At(t, p).zero && At(t, p + [true]) == At(t, p).one
  {
    assert Holds(m[p], At(t, p));
    PathStep(t, p, false);
    PathStep(t, p, true);
    assert DownLink(m, p + [false]) && DownLink(m, p + [true]);
    assert (p + [false])[..|p|] == p && (p + [true])[..|p|] == p;
  }

  method SetEntry(sc: array<Option<Code>>, symbol: Byte, c: Code)
    requires sc.Length == MAX_SYMBOLS
    modifies sc
    ensures sc[..] == old(sc[..])[Index(symbol) := Some(c)]
  {
    sc[Index(symbol)] := Some(c);
  }

  /** Enters the codes of all leaves below the node at p. */
  method BuildSymcode(root: HNode?, sc: array<Option<Code>>, ghost m: PathMap, ghost t: CodeTree, ghost p: Bits)
    requires sc.Length == MAX_SYMBOLS
    requires root != null ==> NodeAt(root, m, t, p) && IsPath(t, p)
    modifies sc
    ensures root == null ==> sc[..] == old(sc[..])
    ensures root != null ==> Entered(sc[..], old(sc[..]), At(t, p), p)
    decreases root != null, if root == null then Leaf(ZERO, 0) else At(t, p)
  {
    hide *;
    if root == null {
      return;
    }
    ghost var before := sc[..];
    LeafNode(root, m, t, p);
    if root.leaf {
      EnterLeaf(root, sc, m, t, p);
    } else {
      ChildNodes(root, m, t, p);
      BuildSymcode(root.zero, sc, m, t, p + [false]);
      ghost var mid := sc[..];
      BuildSymcode(root.one, sc, m, t, p + [true]);
      EnteredBoth(sc[..], mid, before, At(t, p), p);
    }
  }

  method EnterLeaf(root: HNode, sc: array<Option<Code>>, ghost m: PathMap, ghost t: CodeTree, ghost p: Bits)
    requires sc.Length == MAX_SYMBOLS && NodeAt(root, m, t, p) && IsPath(t, p) && root.leaf && At(t, p).Leaf?
    modifies sc
    ensures Entered(sc[..], old(sc[..]), At(t, p), p)
  {
    var c := NewCode(root, m, t, p);
    LeafNode(root, m, t, p);
    hide *;
    EnteredLeaf(sc[..], At(t, p), p);
    SetEntry(sc, root.symbol, c);
  }

  // ---- the pseudo priority queue ----

  /** sfcmp(x, y) <= 0: lower counts first, null last. */
  ghost predicate Before(x: HNode?, y: HNode?)
    reads x, y
  {
    y == null || (x != null && x.count <= y.count)
  }

  ghost predicate SortedTable(s: seq<HNode?>)
    reads set x | x in s
  {
    forall i, j :: 0 <= i < j < |s| ==> Before(s[i], s[j])
  }

  /** qsort of the first n entries by sfcmp; entries with equal counts may come out in any order. */
  method SortTable(sf: array<HNode?>, n: nat)
    requires n <= sf.Length
    modifies sf
    ensures SortedTable(sf[..n]) && multiset(sf[..n]) == multiset(old(sf[..n]))
    ensures sf[n..] == old(sf[n..])
  {
    var i := 0;
    while i < n
      invariant i <= n
      invariant multiset(sf[..n]) == multiset(old(sf[..n]))
      invariant sf[n..] == old(sf[n..])
      invariant forall x, y :: 0 <= x < i && x < y < n ==> Before(sf[x], sf[y])
    {
      hide Before;
      var k := FirstOf(sf, i, n);
      SwapEntries(sf, i, k, n);
      i := i + 1;
    }
    assert forall x, y :: 0 <= x < y < n ==> Before(sf[..n][x], sf[..n][y]);
  }

  lemma SwapItems<T>(s: seq<T>, i: nat, k: nat)
    requires i < |s| && k < |s|
    ensures multiset(s[i := s[k]][k := s[i]]) == multiset(s)
  {
    UpdateItems(s, i, s[k]);
    UpdateItems(s[i := s[k]], k, s[i]);
  }

  method SwapEntries(sf: array<HNode?>, i: nat, k: nat, n: nat)
    requires i <= k < n <= sf.Length
    modifies sf
    ensures sf[i] == old(sf[k]) && sf[k] == old(sf[i])
    ensures forall x :: 0 <= x < sf.Length && x != i && x != k ==> sf[x] == old(sf[x])
    ensures multiset(sf[..n]) == multiset(old(sf[..n])) && sf[n..] == old(sf[n..])
  {
    ghost var s := sf[..n];
    SwapItems(s, i, k);
    sf[i], sf[k] := sf[k], sf[i];
    assert sf[..n] == s[i := s[k]][k := s[i]];
  }

  method FirstOf(sf: array<HNode?>, i: nat, n: nat) returns (k: nat)
    requires i < n <= sf.Length
    ensures i <= k < n && forall y :: i <= y < n ==> Before(sf[k], sf[y])
  {
    k := i;
    for j := i + 1 to n
      invariant i <= k < j && forall y :: i <= y < j ==> Before(sf[k], sf[y])
    {
      if sf[k] == null || (sf[j] != null && sf[j].count < sf[k].count) {
        k := j;
      }
    }
  }

  /** In a sorted table the null entries are at the end, so their number tells where they start. */
  lemma {:induction false} NullsAtEnd(s: seq<HNode?>, live: nat)
    requires SortedTable(s) && live <= |s| && multiset(s)[null] == |s| - live
    ensures forall k :: 0 <= k < |s| ==> (s[k] == null <==> k >= live)
  {
    if s != [] {
      var n := |s| - 1;
      assert s == s[..n] + [s[n]];
      if s[n] == null {
        assert live < |s| by {
          assert multiset(s)[null] >= 1;
        }
        NullsAtEnd(s[..n], live);
      } else {
        assert forall k :: 0 <= k < n ==> Before(s[k], s[n]);
        assert null !in s;
      }
    }
  }
}
