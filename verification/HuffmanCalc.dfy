// calc_code of coursedesign/zip/program/huffman.c. The table is sorted, the two lightest trees in front are
// merged, and the first n entries are sorted again with the null that the merge has left among them; in the
// end one tree is left and its codes are entered. The invariant of the loop says that the entries before the
// nulls are the roots of a forest over the counted symbols, and that what was merged is part of a cheapest tree.
module HuffmanCalc {
  import opened Sums
  import opened BitBytes
  import opened MergeCost
  import opened MergeTree
  import opened HuffmanCode
  import opened HuffmanTree
  import opened HuffmanBuild
  import opened HuffmanForest

  /** The first `live` entries of the table are the roots of a forest, lightest first; the others are null. */
  ghost predicate TableOk(sf: seq<HNode?>, live: nat, plans: Plans, items: seq<(Byte, nat)>)
    reads (set r | r in sf), PlannedNodes(plans)
  {
    && live <= |sf|
    && (forall k :: 0 <= k < |sf| ==> (sf[k] == null <==> k >= live))
    && ForestOk(sf[..live], plans) && SortedTable(sf[..live])
    && Joined(items, Trees(sf[..live], plans))
  }

  ghost function Nulls(k: nat): multiset<HNode?> {
    multiset{}[null := k]
  }

  lemma {:induction false} NullTail(s: seq<HNode?>, live: nat)
    requires live <= |s| && forall k :: live <= k < |s| ==> s[k] == null
    ensures multiset(s) == multiset(s[..live]) + Nulls(|s| - live)
    decreases |s|
  {
    if |s| == live {
      assert s[..live] == s;
      assert Nulls(0) == multiset{};
    } else {
      var n := |s| - 1;
      NullTail(s[..n], live);
      assert s == s[..n] + [null] && s[..n][..live] == s[..live];
      assert Nulls(|s| - live) == Nulls(n - live) + multiset{null};
    }
  }

  /** After a merge the table holds one root less, and one null more. */
  lemma HoleItems(s: seq<HNode?>, live: nat)
    requires 2 <= live <= |s| && s[1] == null && forall k :: live <= k < |s| ==> s[k] == null
    ensures multiset(s) == multiset([s[0]] + s[2..live]) + Nulls(|s| - live + 1)
  {
    NullTail(s, live);
    assert s[..live] == [s[0]] + [null] + s[2..live];
    assert multiset(s[..live]) == multiset{s[0]} + multiset{null} + multiset(s[2..live]);
    assert multiset([s[0]] + s[2..live]) == multiset{s[0]} + multiset(s[2..live]);
    assert Nulls(|s| - live + 1) == Nulls(|s| - live) + multiset{null};
  }

  /** Sorting a table brings the roots to the front and only reorders them. */
  lemma SortedRoots(before: seq<HNode?>, s: seq<HNode?>, live: nat)
    requires live <= |s| && SortedTable(s) && null !in before && |before| == live
    requires multiset(s) == multiset(before) + Nulls(|s| - live)
    ensures forall k :: 0 <= k < |s| ==> (s[k] == null <==> k >= live)
    ensures SortedTable(s[..live]) && multiset(s[..live]) == multiset(before)
  {
    assert multiset(before)[null] == 0;
    NullsAtEnd(s, live);
    NullTail(s, live);
    assert multiset(s[..live]) == multiset(s) - Nulls(|s| - live);
    assert forall i, j :: 0 <= i < j < live ==> Before(s[i], s[j]);
  }

  lemma ReorderedForest(roots: seq<HNode?>, others: seq<HNode?>, plans: Plans, items: seq<(Byte, nat)>)
    requires ForestOk(roots, plans) && Joined(items, Trees(roots, plans)) && multiset(roots) == multiset(others)
    ensures ForestOk(others, plans) && Joined(items, Trees(others, plans))
  {
    ForestPermutation(roots, others, plans);
    MapPermutation(roots, others, TreeAt(plans));
    hide *;
    JoinedPermutation(items, Trees(roots, plans), Trees(others, plans));
  }

  lemma UseTable(sf: seq<HNode?>, live: nat, plans: Plans, items: seq<(Byte, nat)>)
    requires TableOk(sf, live, plans, items)
    ensures live <= |sf| && forall k :: 0 <= k < |sf| ==> (sf[k] == null <==> k >= live)
    ensures ForestOk(sf[..live], plans) && SortedTable(sf[..live]) && Joined(items, Trees(sf[..live], plans))
  {
  }

  /** Sorting the first n entries after a merge, when a null stands at position 1. */
  method SortMerged(sf: array<HNode?>, n: nat, ghost live: nat, ghost plans: Plans, ghost items: seq<(Byte, nat)>)
    requires 2 <= live <= n <= sf.Length && sf[1] == null && sf[0] != null
    requires forall k :: 2 <= k < sf.Length ==> (sf[k] == null <==> k >= live)
    requires ForestOk([sf[0]] + sf[2..live], plans) && Joined(items, Trees([sf[0]] + sf[2..live], plans))
    modifies sf
    ensures TableOk(sf[..], live - 1, plans, items)
    ensures multiset(sf[..live - 1]) == multiset{old(sf[0])} + multiset(old(sf[2..live]))
  {
    hide ForestOk, Joined, Trees, SortedTable, Nulls;
    ghost var before, tail := sf[..n], sf[n..];
    ghost var owned := PlannedNodes(plans);
    SplitTable(sf[..], n, live);
    assert sf[..][..n] == before && sf[..][n..] == tail && sf[..][2..live] == sf[2..live];
    SortTable(sf, n);
    assert PlannedNodes(plans) == owned && ForestOk([before[0]] + before[2..live], plans);
    SortedBack(before, sf[..n], tail, live, plans, items);
    assert tail == sf[n..] && sf[..n] + sf[n..] == sf[..];
    assert sf[..live - 1] == sf[..n][..live - 1];
  }

  lemma SplitTable(sf: seq<HNode?>, n: nat, live: nat)
    requires 2 <= live <= n <= |sf| && sf[1] == null && sf[0] != null
    requires forall k :: 2 <= k < |sf| ==> (sf[k] == null <==> k >= live)
    ensures sf[..n][2..live] == sf[2..live] && sf[..n][1] == null && sf[..n][0] != null
    ensures forall k :: 2 <= k < n ==> (sf[..n][k] == null <==> k >= live)
    ensures forall k :: 0 <= k < |sf| - n ==> sf[n..][k] == null
  {
  }

  lemma SortedBack(before: seq<HNode?>, s: seq<HNode?>, tail: seq<HNode?>, live: nat, plans: Plans,
                   items: seq<(Byte, nat)>)
    requires 2 <= live <= |s| == |before| && multiset(s) == multiset(before) && SortedTable(s)
    requires before[1] == null && before[0] != null
    requires forall k :: 2 <= k < |before| ==> (before[k] == null <==> k >= live)
    requires forall k :: 0 <= k < |tail| ==> tail[k] == null
    requires ForestOk([before[0]] + before[2..live], plans)
    requires Joined(items, Trees([before[0]] + before[2..live], plans))
    ensures TableOk(s + tail, live - 1, plans, items)
    ensures multiset(s[..live - 1]) == multiset{before[0]} + multiset(before[2..live])
  {
    hide ForestOk, Joined, Trees, SortedTable, Nulls, TableOk;
    var mixed := [before[0]] + before[2..live];
    HoleItems(before, live);
    SortedRoots(mixed, s, live - 1);
    ReorderedForest(mixed, s[..live - 1], plans, items);
    MakeTable(s, tail, live - 1, plans, items);
    assert multiset(mixed) == multiset{before[0]} + multiset(before[2..live]);
  }

  lemma MakeTable(sorted: seq<HNode?>, tail: seq<HNode?>, live: nat, plans: Plans, items: seq<(Byte, nat)>)
    requires live <= |sorted|
    requires forall k :: 0 <= k < |sorted| ==> (sorted[k] == null <==> k >= live)
    requires forall k :: 0 <= k < |tail| ==> tail[k] == null
    requires ForestOk(sorted[..live], plans) && SortedTable(sorted[..live])
    requires Joined(items, Trees(sorted[..live], plans))
    ensures TableOk(sorted + tail, live, plans, items)
  {
    assert (sorted + tail)[..live] == sorted[..live];
  }

  /** One turn of the merge loop: the two lightest trees are joined and the first n entries sorted again. */
  method MergeAndSort(sf: array<HNode?>, n: nat, ghost live: nat, ghost plans: Plans, ghost items: seq<(Byte, nat)>)
    returns (ghost after: Plans, ghost first: HNode?)
    requires 2 <= live <= n <= sf.Length && TableOk(sf[..], live, plans, items)
    modifies sf, sf[0], sf[1]
    ensures TableOk(sf[..], live - 1, after, items)
    ensures first != null && fresh(first)
    ensures multiset(sf[..live - 1]) == multiset{first} + multiset(old(sf[2..live]))
  {
    hide *;
    ghost var rest := sf[2..live];
    UseTable(sf[..], live, plans, items);
    assert sf[..][..live] == sf[..live];
    after := MergeLightest(sf, live, plans, items);
    first := sf[0];
    assert rest == sf[2..live];
    SortMerged(sf, n, live, after, items);
  }

  // ---- the frequency table the loop starts from ----

  /** The entries are null or leaves without a parent, each symbol at most once. */
  ghost predicate FreshLeaves(s: seq<HNode?>)
    reads set r | r in s
  {
    && (forall r :: r in s && r != null ==> r.leaf && r.parent == null && multiset(s)[r] == 1)
    && (forall r, u :: r in s && u in s && r != null && u != null && r != u ==> r.symbol != u.symbol)
  }

  /** The symbols of the table with their counts. */
  ghost function FreqItems(s: seq<HNode?>): set<(Byte, nat)>
    reads set r | r in s
  {
    set r | r in s && r != null :: (r.symbol, r.count)
  }

  ghost function LeafPlans(roots: seq<HNode?>): Plans
    reads set r | r in roots
  {
    map r | r in roots && r != null :: Plan(Leaf(r.symbol, r.count), map[[] := r])
  }

  ghost function LeafItems(roots: seq<HNode?>): seq<(Byte, nat)>
    requires null !in roots
    reads set r | r in roots
  {
    seq(|roots|, k requires 0 <= k < |roots| reads (set r | r in roots) => (roots[k].symbol, roots[k].count))
  }

  lemma SameLeaves(s: seq<HNode?>, u: seq<HNode?>)
    requires multiset(s) == multiset(u) && FreshLeaves(s)
    ensures FreshLeaves(u) && FreqItems(u) == FreqItems(s)
  {
    forall r ensures r in s <==> r in u {
      assert r in s <==> r in multiset(s);
    }
  }

  lemma LeafForest(roots: seq<HNode?>)
    requires FreshLeaves(roots) && null !in roots
    ensures ForestOk(roots, LeafPlans(roots))
  {
    var plans := LeafPlans(roots);
    forall r | r in roots ensures RootOk(r, plans[r]) && plans[r].nodes.Values == {r} {
      assert plans[r].nodes == map[[] := r];
    }
  }

  lemma LeafJoined(roots: seq<HNode?>)
    requires null !in roots
    ensures Joined(LeafItems(roots), Trees(roots, LeafPlans(roots)))
  {
    var items := LeafItems(roots);
    JoinedAtFirst(items);
    hide Joined;
    assert Map(items, Single()) == Trees(roots, LeafPlans(roots));
  }

  lemma LeafItemsDistinct(roots: seq<HNode?>)
    requires FreshLeaves(roots) && null !in roots
    ensures DistinctItems(LeafItems(roots))
    ensures (set x | x in LeafItems(roots)) == FreqItems(roots)
  {
    var items := LeafItems(roots);
    forall i, j | 0 <= i < j < |roots| ensures items[i].0 != items[j].0 {
      OnceInSequence(roots, i, j);
      assert roots[i] in roots && roots[j] in roots;
    }
    forall x | x in FreqItems(roots) ensures x in items {
      var r :| r in roots && r != null && x == (r.symbol, r.count);
      var k :| 0 <= k < |roots| && roots[k] == r;
      assert items[k] == x;
    }
  }

  lemma OnceInSequence(s: seq<HNode?>, i: nat, j: nat)
    requires i < j < |s| && multiset(s)[s[i]] == 1
    ensures s[i] != s[j]
  {
    assert s == s[..i] + [s[i]] + s[i + 1..j] + [s[j]] + s[j + 1..];
  }

  /** The table before the first merge. */
  lemma StartTable(s: seq<HNode?>, n: nat)
    requires FreshLeaves(s) && SortedTable(s) && n <= |s|
    requires forall k :: 0 <= k < n ==> s[k] != null
    requires n < |s| ==> s[n] == null
    ensures null !in s[..n]
    ensures TableOk(s, n, LeafPlans(s[..n]), LeafItems(s[..n]))
    ensures DistinctItems(LeafItems(s[..n])) && (set x | x in LeafItems(s[..n])) == FreqItems(s)
  {
    hide ForestOk, Joined, LeafPlans, LeafItems, DistinctItems, FreshLeaves, FreqItems, Trees;
    var roots := s[..n];
    forall k | n < k < |s| ensures s[k] == null {
      assert Before(s[n], s[k]);
    }
    PrefixLeaves(s, n);
    LeafForest(roots);
    LeafJoined(roots);
    LeafItemsDistinct(roots);
  }

  lemma PrefixLeaves(s: seq<HNode?>, n: nat)
    requires FreshLeaves(s) && n <= |s|
    requires forall k :: 0 <= k < |s| ==> (s[k] == null <==> k >= n)
    ensures null !in s[..n] && FreshLeaves(s[..n]) && FreqItems(s[..n]) == FreqItems(s)
  {
    var roots := s[..n];
    assert s == roots + s[n..];
    assert forall r :: r in s[n..] ==> r == null;
    assert multiset(s) == multiset(roots) + multiset(s[n..]);
    assert forall r :: r in roots <==> r in s && r != null;
    assert forall r :: r in roots ==> multiset(s[n..])[r] == 0;
  }

  /** What the final tree is: a cheapest tree over the items, no item twice. */
  ghost predicate Optimal(t: CodeTree, items: seq<(Byte, nat)>) {
    TreeOver(t, items) && Distinct(t) && DistinctItems(items) &&
    LowerBound(ItemWeights(items), Cost(t)) && LeastCost(items, Cost(t))
  }

  ghost predicate OneRoot(sf: seq<HNode?>, plans: Plans)
    reads (set r | r in sf), PlannedNodes(plans)
  {
    |sf| > 0 && sf[0] != null && sf[0] in plans &&
    NodeAt(sf[0], plans[sf[0]].nodes, plans[sf[0]].tree, [])
  }

  lemma LastRoot(sf: seq<HNode?>, plans: Plans, items: seq<(Byte, nat)>)
    requires TableOk(sf, 1, plans, items) && DistinctItems(items)
    ensures OneRoot(sf, plans) && Optimal(plans[sf[0]].tree, items) && LighterFirst(plans[sf[0]].tree)
  {
    hide Joined, Distinct, DistinctItems, LowerBound;
    var roots := sf[..1];
    assert roots[0] in roots && RootOk(sf[0], plans[sf[0]]);
    var t := plans[sf[0]].tree;
    assert Trees(roots, plans) == [t];
    JoinedAtLast(items, [t]);
    DistinctPermutation(items, Leaves(t));
    DistinctLeaves(t);
  }

  /** The whole table, by symbol. */
  ghost predicate TableFor(sc: Table, t: CodeTree) {
    |sc| == MAX_SYMBOLS && forall s: Byte :: sc[Index(s)] == CodeEntry(t, s)
  }

  lemma EnteredAll(after: Table, before: Table, t: CodeTree)
    requires Entered(after, before, t, []) && forall k :: 0 <= k < |before| ==> before[k] == None
    ensures TableFor(after, t)
  {
    hide MakeCode;
    forall s: Byte | s in Symbols(t) ensures [] + CodeOf(t, s) == CodeOf(t, s) {}
  }

  /** Everything that is below the roots is either one of the first leaves or was made by the loop. */
  lemma StillOwned(s: seq<HNode?>, first: HNode?, rest: seq<HNode?>)
    requires multiset(s) == multiset{first} + multiset(rest)
    ensures forall r :: r in s ==> r == first || r in rest
  {
    forall r | r in s ensures r == first || r in rest {
      assert r in multiset(s);
    }
  }

  /** qsort of the whole table, and the number of symbols in it. */
  method SortAndCount(sf: array<HNode?>) returns (n: nat, ghost plans: Plans, ghost items: seq<(Byte, nat)>)
    requires sf.Length == MAX_SYMBOLS && FreshLeaves(sf[..])
    modifies sf
    ensures n <= sf.Length && TableOk(sf[..], n, plans, items) && DistinctItems(items)
    ensures (set x | x in items) == old(FreqItems(sf[..]))
    ensures multiset(sf[..]) == multiset(old(sf[..]))
  {
    hide *;
    ghost var before := sf[..];
    SortTable(sf, MAX_SYMBOLS);
    assert sf[..MAX_SYMBOLS] == sf[..] && before[..MAX_SYMBOLS] == before;
    SameLeaves(before, sf[..]);
    n := 0;
    while n < MAX_SYMBOLS && sf[n] != null
      invariant n <= MAX_SYMBOLS && forall k :: 0 <= k < n ==> sf[k] != null
    {
      n := n + 1;
    }
    StartTable(sf[..], n);
    plans, items := LeafPlans(sf[..n]), LeafItems(sf[..n]);
    assert sf[..][..n] == sf[..n];
  }

  // One turn of the loop; the roots stay among the nodes that the loop may change.
  method MergeTurn(sf: array<HNode?>, n: nat, ghost live: nat, ghost plans: Plans, ghost items: seq<(Byte, nat)>,
                   ghost owned: set<HNode?>)
    returns (ghost after: Plans, ghost all: set<HNode?>)
    requires 2 <= live <= n <= sf.Length && TableOk(sf[..], live, plans, items)
    requires forall k :: 0 <= k < live ==> sf[k] in owned
    modifies sf, owned
    ensures TableOk(sf[..], live - 1, after, items) && fresh(all - owned)
    ensures forall k :: 0 <= k < live - 1 ==> sf[k] in all
  {
    hide *;
    ghost var rest := sf[2..live];
    ghost var first;
    after, first := MergeAndSort(sf, n, live, plans, items);
    all := owned + {first};
    StillOwned(sf[..live - 1], first, rest);
    assert forall k :: 0 <= k < live - 1 ==> sf[k] in sf[..live - 1];
  }

  // The merge loop, which joins the two lightest trees n - 1 times. The numbers are unsigned: without any
  // symbol n - 1 is 2^32 - 1, and the first turn goes through a null pointer.
  method MergeAll(sf: array<HNode?>, n: nat, ghost start: Plans, ghost items: seq<(Byte, nat)>)
    returns (crashed: bool, ghost plans: Plans)
    requires n <= sf.Length == MAX_SYMBOLS && TableOk(sf[..], n, start, items)
    modifies sf, set r | r in sf[..] && r != null
    ensures crashed <==> n == 0
    ensures !crashed ==> TableOk(sf[..], 1, plans, items)
  {
    hide *;
    ghost var leaves := set r | r in sf[..] && r != null;
    ghost var owned := leaves;
    plans := start;
    UseTable(sf[..], n, plans, items);
    FirstTwo(sf[..], n, plans, items);
    var last := MinusOne(n);
    MinusOneIs(n);
    var i := 0;
    while i < last
      invariant n > 0 ==> i <= n - 1 && TableOk(sf[..], n - i, plans, items)
      invariant n == 0 ==> i == 0 && sf[0] == null
      invariant fresh(owned - leaves) && forall k :: 0 <= k < n - i ==> sf[k] in owned
      decreases last - i
    {
      if sf[0] == null || sf[1] == null {
        TwoLeft(sf[..], n, i, plans, items);
        return true, plans;
      }
      plans, owned := MergeTurn(sf, n, n - i, plans, items, owned);
      i := i + 1;
    }
    crashed := false;
  }

  /** n - 1 as an unsigned number. */
  function MinusOne(n: nat): nat {
    (n + TWO32 - 1) % TWO32
  }

  lemma {:induction false} MinusOneIs(n: nat)
    requires n <= MAX_SYMBOLS
    ensures MinusOne(n) == (if n == 0 then TWO32 - 1 else n - 1) && MinusOne(0) > 0
  {
  }

  lemma FirstTwo(sf: seq<HNode?>, n: nat, plans: Plans, items: seq<(Byte, nat)>)
    requires TableOk(sf, n, plans, items) && |sf| == MAX_SYMBOLS
    ensures |sf| > 1 && (n == 0 ==> sf[0] == null)
  {
  }

  lemma TwoLeft(sf: seq<HNode?>, n: nat, i: nat, plans: Plans, items: seq<(Byte, nat)>)
    requires |sf| == MAX_SYMBOLS && (n > 0 ==> i < n - 1 && TableOk(sf, n - i, plans, items))
    ensures n > 0 ==> sf[0] != null && sf[1] != null
  {
  }

  method NewTable() returns (sc: array<Option<Code>>)
    ensures fresh(sc) && sc.Length == MAX_SYMBOLS && forall k :: 0 <= k < sc.Length ==> sc[k] == None
  {
    sc := new Option<Code>[MAX_SYMBOLS](_ => None);
  }

  lemma UseOneRoot(sf: seq<HNode?>, plans: Plans)
    requires OneRoot(sf, plans)
    ensures |sf| > 0 && sf[0] != null && sf[0] in plans
    ensures NodeAt(sf[0], plans[sf[0]].nodes, plans[sf[0]].tree, [])
    ensures IsPath(plans[sf[0]].tree, []) && At(plans[sf[0]].tree, []) == plans[sf[0]].tree
  {
  }

  predicate NoSymbol(s: seq<HNode?>) {
    forall k :: 0 <= k < |s| ==> s[k] == null
  }

  // Sorts the table, merges until one tree is left, and enters the codes of its leaves; it crashes exactly
  // if there is no symbol at all.
  method CalcCode(sf: array<HNode?>)
    returns (crashed: bool, sc: array<Option<Code>>, ghost t: CodeTree, ghost items: seq<(Byte, nat)>)
    requires sf.Length == MAX_SYMBOLS && FreshLeaves(sf[..])
    modifies sf, set r | r in sf[..] && r != null
    ensures fresh(sc) && (crashed <==> old(NoSymbol(sf[..])))
    ensures !crashed ==> TableFor(sc[..], t) && Optimal(t, items) && (set x | x in items) == old(FreqItems(sf[..]))
    ensures !crashed ==> LighterFirst(t)
  {
    hide *;
    ghost var before := sf[..];
    var n;
    ghost var plans;
    n, plans, items := SortAndCount(sf);
    AllKept(before, sf[..]);
    SomeSymbol(sf[..], n, plans, items);
    crashed, plans := MergeAll(sf, n, plans, items);
    if crashed {
      sc := NewTable();
      t := Leaf(ZERO, 0);
    } else {
      sc, t := EnterCodes(sf, plans, items);
    }
  }

  lemma AllKept(s: seq<HNode?>, u: seq<HNode?>)
    requires multiset(s) == multiset(u)
    ensures forall r :: r in u ==> r in s
    ensures NoSymbol(s) <==> NoSymbol(u)
  {
    forall r ensures r in s <==> r in u {
      assert r in s <==> r in multiset(s);
    }
    forall k | 0 <= k < |s| && s[k] != null ensures !NoSymbol(u) {
      assert s[k] in u;
    }
    forall k | 0 <= k < |u| && u[k] != null ensures !NoSymbol(s) {
      assert u[k] in s;
    }
  }

  lemma SomeSymbol(s: seq<HNode?>, n: nat, plans: Plans, items: seq<(Byte, nat)>)
    requires TableOk(s, n, plans, items)
    ensures n == 0 <==> NoSymbol(s)
  {
  }

  method EnterCodes(sf: array<HNode?>, ghost plans: Plans, ghost items: seq<(Byte, nat)>)
    returns (sc: array<Option<Code>>, ghost t: CodeTree)
    requires TableOk(sf[..], 1, plans, items) && DistinctItems(items)
    ensures fresh(sc) && TableFor(sc[..], t) && Optimal(t, items) && LighterFirst(t)
  {
    hide *;
    LastRoot(sf[..], plans, items);
    UseOneRoot(sf[..], plans);
    t := plans[sf[0]].tree;
    sc := NewTable();
    ghost var before := sc[..];
    UseOneRoot(sf[..], plans);
    BuildSymcode(sf[0], sc, plans[sf[0]].nodes, t, []);
    EnteredAll(sc[..], before, t);
  }
}
