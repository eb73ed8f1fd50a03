module MergeTree {
  // Binary merge trees, prefix codes, and why neither can beat a `MergeCost.LowerBound`.

  import opened BitBytes
  import opened MergeCost
  import opened Sums

  datatype Tree<S> =
    | Leaf(symbol: S, weight: nat)
    | Node(zero: Tree<S>, one: Tree<S>)

  function Weight<S>(t: Tree<S>): nat {
    match t
    case Leaf(_, w) => w
    case Node(l, r) => Weight(l) + Weight(r)
  }

  /** What building the tree costs: every merge costs the weight of the merged tree. */
  function Cost<S>(t: Tree<S>): nat {
    match t
    case Leaf(_, _) => 0
    case Node(l, r) => Cost(l) + Cost(r) + Weight(t)
  }

  function Height<S>(t: Tree<S>): nat {
    match t
    case Leaf(_, _) => 0
    case Node(l, r) => 1 + if Height(l) >= Height(r) then Height(l) else Height(r)
  }

  /** In every join the lighter of the two trees is the zero child. */
  predicate LighterFirst<S>(t: Tree<S>) {
    match t
    case Leaf(_, _) => true
    case Node(l, r) => Weight(l) <= Weight(r) && LighterFirst(l) && LighterFirst(r)
  }

  /** The leaf weights from left to right. */
  function Weights<S>(t: Tree<S>): (ws: seq<nat>)
    ensures |ws| >= 1
  {
    match t
    case Leaf(_, w) => [w]
    case Node(l, r) => Weights(l) + Weights(r)
  }

  /** The leaves, with their symbols, from left to right. */
  function Leaves<S>(t: Tree<S>): (r: seq<(S, nat)>) {
    match t
    case Leaf(s, w) => [(s, w)]
    case Node(l, r) => Leaves(l) + Leaves(r)
  }

  function ItemWeights<S>(items: seq<(S, nat)>): seq<nat> {
    Map(items, (p: (S, nat)) => p.1)
  }

  lemma {:induction false} WeightsOfLeaves<S>(t: Tree<S>)
    ensures Weights(t) == ItemWeights(Leaves(t))
  {
    match t
    case Leaf(_, _) =>
    case Node(l, r) =>
      WeightsOfLeaves(l);
      WeightsOfLeaves(r);
  }

  /** t is a merge tree whose leaves are exactly the given items. */
  ghost predicate TreeOver<S>(t: Tree<S>, items: seq<(S, nat)>) {
    multiset(Leaves(t)) == multiset(items)
  }

  /** c is the least cost of any merge tree over the items. */
  ghost predicate LeastCost<S(!new)>(items: seq<(S, nat)>, c: nat) {
    (exists t: Tree<S> :: TreeOver(t, items) && Cost(t) == c) &&
    forall t: Tree<S> :: TreeOver(t, items) ==> c <= Cost(t)
  }

  /** The leaf depths from left to right, for a tree whose root is at depth d. */
  function Depths<S>(t: Tree<S>, d: nat): (ls: seq<nat>)
    ensures |ls| == |Weights(t)|
  {
    match t
    case Leaf(_, _) => [d]
    case Node(l, r) => Depths(l, d + 1) + Depths(r, d + 1)
  }

  /** The cost of all merges is the sum of leaf weight times leaf depth. */
  lemma {:induction false} CostIsWeightedDepth<S>(t: Tree<S>, d: nat)
    ensures Dot(Weights(t), Depths(t, d)) == Cost(t) + d * Weight(t)
  {
    match t
    case Leaf(_, w) =>
      DotSingle(w, d);
    case Node(l, r) =>
      CostIsWeightedDepth(l, d + 1);
      CostIsWeightedDepth(r, d + 1);
      DotConcat(Weights(l), Weights(r), Depths(l, d + 1), Depths(r, d + 1));
      Distribute(d, Weight(l), Weight(r));
  }

  lemma DotSingle(w: nat, d: nat)
    ensures Dot([w], [d]) == d * w
  {
    assert Zip([w], [d]) == [(w, d)];
    SumSingle<(nat, nat)>((w, d), Product);
  }

  lemma Distribute(d: nat, a: nat, b: nat)
    ensures (d + 1) * a + (d + 1) * b == d * (a + b) + a + b
  {
  }

  lemma {:induction false} TreeFits<S>(t: Tree<S>, d: nat, L: nat)
    requires d + Height(t) <= L
    ensures AtMost(Depths(t, d), L) && KraftSum(Depths(t, d), L) == Pow2(L - d)
  {
    match t
    case Leaf(_, _) =>
      SumSingle<nat>(d, SlotAt(L));
    case Node(l, r) =>
      TreeFits(l, d + 1, L);
      TreeFits(r, d + 1, L);
      SumConcat(Depths(l, d + 1), Depths(r, d + 1), SlotAt(L));
  }

  lemma {:induction false} NoTreeBeatsBound<S>(items: seq<(S, nat)>, c: nat, t: Tree<S>)
    requires LowerBound(ItemWeights(items), c) && TreeOver(t, items)
    ensures c <= Cost(t)
  {
    WeightsOfLeaves(t);
    MapPermutation(items, Leaves(t), (p: (S, nat)) => p.1);
    LowerBoundPermutation(ItemWeights(items), Weights(t), c);
    TreeFits(t, 0, Height(t));
    assert Fits(Depths(t, 0), Height(t));
    CostIsWeightedDepth(t, 0);
  }

  // ---- forests: the trees that are still to be merged ----

  ghost function LeafCount<S>(x: (S, nat)): Tree<S> -> nat {
    (t: Tree<S>) => multiset(Leaves(t))[x]
  }

  /** How often the item x occurs as a leaf of the forest. */
  ghost function Occurrences<S>(f: seq<Tree<S>>, x: (S, nat)): nat {
    Sum(f, LeafCount(x))
  }

  function CostOf<S>(): Tree<S> -> nat {
    (t: Tree<S>) => Cost(t)
  }

  function ForestCost<S>(f: seq<Tree<S>>): nat {
    Sum(f, CostOf())
  }

  /** The leaves of the forest are exactly the items. */
  ghost predicate ForestOver<S(!new)>(f: seq<Tree<S>>, items: seq<(S, nat)>) {
    forall x: (S, nat) :: Occurrences(f, x) == multiset(items)[x]
  }

  /** Merging two trees keeps all the leaves and costs the weight of the new tree. */
  lemma MergeTwoTrees<S(!new)>(f: seq<Tree<S>>, i: nat, j: nat, items: seq<(S, nat)>)
    requires i < |f| && j < |f| && i != j && i != |f| - 1 && ForestOver(f, items)
    ensures ForestOver(Fold2(f, i, j, Node(f[i], f[j])), items)
    ensures ForestCost(Fold2(f, i, j, Node(f[i], f[j]))) == ForestCost(f) + Weight(f[i]) + Weight(f[j])
  {
    var t := Node(f[i], f[j]);
    forall x: (S, nat) ensures Occurrences(Fold2(f, i, j, t), x) == Occurrences(f, x) {
      SumFold2(f, i, j, t, LeafCount(x));
      assert multiset(Leaves(t)) == multiset(Leaves(f[i])) + multiset(Leaves(f[j]));
    }
    MergeForestCost(f, i, j);
  }

  lemma MergeForestCost<S>(f: seq<Tree<S>>, i: nat, j: nat)
    requires i < |f| && j < |f| && i != j && i != |f| - 1
    ensures ForestCost(Fold2(f, i, j, Node(f[i], f[j]))) == ForestCost(f) + Weight(f[i]) + Weight(f[j])
  {
    SumFold2(f, i, j, Node(f[i], f[j]), CostOf());
  }

  lemma SingleCost<S>(f: seq<Tree<S>>)
    requires |f| == 1
    ensures ForestCost(f) == Cost(f[0])
  {
    assert f == [f[0]];
    SumSingle(f[0], CostOf());
  }

  /** A forest of one tree over the items is a merge tree over them. */
  lemma SingleTree<S(!new)>(f: seq<Tree<S>>, items: seq<(S, nat)>)
    requires |f| == 1 && ForestOver(f, items)
    ensures TreeOver(f[0], items) && ForestCost(f) == Cost(f[0])
  {
    assert f == [f[0]];
    SingleCost(f);
    forall x: (S, nat) ensures multiset(Leaves(f[0]))[x] == multiset(items)[x] {
      SumSingle(f[0], LeafCount(x));
      assert Occurrences(f, x) == multiset(items)[x];
    }
  }

  function WeightOf<S>(): Tree<S> -> nat {
    (t: Tree<S>) => Weight(t)
  }

  function ForestWeights<S>(f: seq<Tree<S>>): (ws: seq<nat>)
    ensures |ws| == |f| && forall k :: 0 <= k < |f| ==> ws[k] == Weight(f[k])
  {
    Map(f, WeightOf())
  }

  /** Every lower bound for the current weights is, after adding what was spent, one for ws. */
  ghost predicate Carries(ws: seq<nat>, cur: seq<nat>, spent: nat) {
    forall c: nat :: LowerBound(cur, c) ==> LowerBound(ws, spent + c)
  }

  lemma CarryMerge(ws: seq<nat>, cur: seq<nat>, i: nat, j: nat, spent: nat)
    requires TwoSmallest(cur, i, j) && i != |cur| - 1 && Carries(ws, cur, spent)
    ensures Carries(ws, Fold2(cur, i, j, cur[i] + cur[j]), spent + cur[i] + cur[j])
  {
    hide LowerBound, Fold2;
    var merged := Fold2(cur, i, j, cur[i] + cur[j]);
    forall c: nat | LowerBound(merged, c)
      ensures LowerBound(ws, spent + cur[i] + cur[j] + c)
    {
      MergeTwoSmallest(cur, i, j, c);
      assert spent + (c + cur[i] + cur[j]) == spent + cur[i] + cur[j] + c;
    }
  }

  // The forest holds exactly the items, and its cost plus a lower bound for what is still to be merged
  // is a lower bound for the items. Merging two lightest trees keeps this.
  ghost predicate Joined<S(!new)>(items: seq<(S, nat)>, f: seq<Tree<S>>) {
    ForestOver(f, items) && Carries(ItemWeights(items), ForestWeights(f), ForestCost(f))
  }

  function Single<S>(): ((S, nat)) -> Tree<S> {
    (p: (S, nat)) => Leaf(p.0, p.1)
  }

  lemma {:induction false} SinglesCost<S>(items: seq<(S, nat)>)
    ensures ForestCost(Map(items, Single())) == 0
  {
    if items != [] {
      SinglesCost(items[1..]);
      assert Map(items, Single())[1..] == Map(items[1..], Single());
    }
  }

  lemma {:induction false} SinglesForest<S>(items: seq<(S, nat)>, x: (S, nat))
    ensures Occurrences(Map(items, Single()), x) == multiset(items)[x]
  {
    var f := Map(items, Single());
    if items != [] {
      SinglesForest(items[1..], x);
      assert f[1..] == Map(items[1..], Single());
      assert items == [items[0]] + items[1..];
    }
  }

  lemma JoinedAtFirst<S(!new)>(items: seq<(S, nat)>)
    ensures Joined(items, Map(items, Single()))
  {
    var f := Map(items, Single());
    forall x: (S, nat) {
      SinglesForest(items, x);
    }
    SinglesCost(items);
    assert ForestWeights(f) == ItemWeights(items);
  }

  lemma JoinTwo<S(!new)>(items: seq<(S, nat)>, f: seq<Tree<S>>, i: nat, j: nat)
    requires Joined(items, f) && TwoSmallest(ForestWeights(f), i, j) && i != |f| - 1
    ensures Joined(items, Fold2(f, i, j, Node(f[i], f[j])))
    ensures ForestWeights(Fold2(f, i, j, Node(f[i], f[j])))
         == Fold2(ForestWeights(f), i, j, Weight(f[i]) + Weight(f[j]))
  {
    hide ForestOver, Carries, ForestCost, ItemWeights;
    var cur := ForestWeights(f);
    var g := Fold2(f, i, j, Node(f[i], f[j]));
    CarryMerge(ItemWeights(items), cur, i, j, ForestCost(f));
    MergeTwoTrees(f, i, j, items);
    assert ForestWeights(g) == Fold2(cur, i, j, cur[i] + cur[j]);
  }

  lemma JoinedPermutation<S(!new)>(items: seq<(S, nat)>, f: seq<Tree<S>>, g: seq<Tree<S>>)
    requires Joined(items, f) && multiset(f) == multiset(g)
    ensures Joined(items, g)
  {
    hide LowerBound, ItemWeights;
    SumPermutation(f, g, CostOf());
    MapPermutation(f, g, WeightOf());
    forall x: (S, nat) ensures Occurrences(g, x) == multiset(items)[x] {
      SumPermutation(f, g, LeafCount(x));
      assert Occurrences(f, x) == multiset(items)[x];
    }
    forall c: nat | LowerBound(ForestWeights(g), c) ensures LowerBound(ItemWeights(items), ForestCost(g) + c) {
      LowerBoundPermutation(ForestWeights(g), ForestWeights(f), c);
    }
  }

  lemma JoinedAtLast<S(!new)>(items: seq<(S, nat)>, f: seq<Tree<S>>)
    requires Joined(items, f) && |f| == 1
    ensures TreeOver(f[0], items) && LowerBound(ItemWeights(items), Cost(f[0])) && LeastCost(items, Cost(f[0]))
  {
    SingleTree(f, items);
    assert LowerBound(ForestWeights(f), 0);
    assert LowerBound(ItemWeights(items), Cost(f[0]) + 0);
    forall u: Tree<S> | TreeOver(u, items) ensures Cost(f[0]) <= Cost(u) {
      NoTreeBeatsBound(items, Cost(f[0]), u);
    }
  }

  // ---- prefix codes ----

  ghost predicate PrefixFree(codes: seq<Bits>) {
    forall i, j :: 0 <= i < |codes| && 0 <= j < |codes| && i != j ==> !(codes[i] <= codes[j])
  }

  function Lengths(codes: seq<Bits>): seq<nat> {
    seq(|codes|, i requires 0 <= i < |codes| => |codes[i]|)
  }

  /** What follows the bit b in the words that start with it. */
  function Tails(codes: seq<Bits>, b: bool): (r: seq<Bits>)
    ensures forall x :: x in r ==> [b] + x in codes
  {
    if codes == [] then []
    else
      var front, last := codes[..|codes| - 1], codes[|codes| - 1];
      if last != [] && last[0] == b then
        assert [b] + last[1..] == last;
        Tails(front, b) + [last[1..]]
      else Tails(front, b)
  }

  lemma PrefixAfter(x: Bits, y: Bits, b: bool)
    ensures [b] + x <= [b] + y <==> x <= y
  {
    if [b] + x <= [b] + y {
      assert x == ([b] + x)[1..] && y == ([b] + y)[1..];
    }
  }

  /** The rest of the last word is no prefix of the rest of an earlier one, nor the other way round. */
  lemma TailBeside(codes: seq<Bits>, b: bool, x: Bits)
    requires PrefixFree(codes) && codes != [] && [b] + x in codes[..|codes| - 1]
    requires codes[|codes| - 1] != [] && codes[|codes| - 1][0] == b
    ensures var y := codes[|codes| - 1][1..]; !(x <= y) && !(y <= x)
  {
    var n := |codes| - 1;
    var y := codes[n][1..];
    var k :| 0 <= k < n && codes[k] == [b] + x;
    assert codes[n] == [b] + y;
    assert !(codes[k] <= codes[n]) && !(codes[n] <= codes[k]);
    PrefixAfter(x, y, b);
    PrefixAfter(y, x, b);
  }

  lemma {:induction false} TailsPrefixFree(codes: seq<Bits>, b: bool)
    requires PrefixFree(codes)
    ensures PrefixFree(Tails(codes, b))
  {
    if codes != [] {
      var n := |codes| - 1;
      var front, last := codes[..n], codes[n];
      TailsPrefixFree(front, b);
      var r := Tails(front, b);
      if last != [] && last[0] == b {
        forall i | 0 <= i < |r| ensures !(r[i] <= last[1..]) && !(last[1..] <= r[i]) {
          TailBeside(codes, b, r[i]);
        }
      }
    }
  }

  lemma KraftAppend(ls: seq<nat>, l: nat, L: nat)
    ensures KraftSum(ls + [l], L) == KraftSum(ls, L) + Slot(l, L)
  {
    SumConcat<nat>(ls, [l], SlotAt(L));
    SumSingle<nat>(l, SlotAt(L));
  }

  /** Splitting non-empty words by their first bit splits the Kraft sum. */
  lemma {:induction false} TailsKraft(codes: seq<Bits>, L: nat)
    requires L >= 1 && forall i :: 0 <= i < |codes| ==> 1 <= |codes[i]| <= L
    ensures KraftSum(Lengths(codes), L)
         == KraftSum(Lengths(Tails(codes, false)), L - 1) + KraftSum(Lengths(Tails(codes, true)), L - 1)
  {
    if codes != [] {
      hide KraftSum;
      var n := |codes| - 1;
      var front, last := codes[..n], codes[n];
      TailsKraft(front, L);
      assert Lengths(codes) == Lengths(front) + [|last|];
      KraftAppend(Lengths(front), |last|, L);
      var r := Tails(front, last[0]);
      assert Tails(codes, last[0]) == r + [last[1..]] && Tails(codes, !last[0]) == Tails(front, !last[0]);
      assert Lengths(r + [last[1..]]) == Lengths(r) + [|last| - 1];
      KraftAppend(Lengths(r), |last| - 1, L - 1);
    } else {
      assert Lengths(codes) == [];
    }
  }

  lemma {:induction false} TailsAreShorter(codes: seq<Bits>, b: bool, L: nat)
    requires forall i :: 0 <= i < |codes| ==> |codes[i]| <= L
    ensures forall i :: 0 <= i < |Tails(codes, b)| ==> |Tails(codes, b)[i]| + 1 <= L
  {
    forall i | 0 <= i < |Tails(codes, b)| ensures |Tails(codes, b)[i]| + 1 <= L {
      assert [b] + Tails(codes, b)[i] in codes;
    }
  }

  lemma EmptyWordIsAlone(codes: seq<Bits>, k: nat)
    requires PrefixFree(codes) && k < |codes| && codes[k] == []
    ensures |codes| == 1
  {
    var j := if k == 0 then |codes| - 1 else 0;
    assert codes[k] <= codes[j];
  }

  /** Kraft's inequality: the word lengths of a prefix code fit. */
  lemma {:induction false} PrefixCodeFits(codes: seq<Bits>, L: nat)
    requires PrefixFree(codes) && forall i :: 0 <= i < |codes| ==> |codes[i]| <= L
    ensures Fits(Lengths(codes), L)
    decreases L
  {
    if |codes| == 0 {
    } else if k :| 0 <= k < |codes| && codes[k] == [] {
      EmptyWordIsAlone(codes, k);
      assert Lengths(codes) == [0];
      SumSingle<nat>(0, SlotAt(L));
    } else {
      hide Tails, KraftSum, PrefixFree;
      TailsKraft(codes, L);
      TailsPrefixFree(codes, false);
      TailsPrefixFree(codes, true);
      TailsAreShorter(codes, false, L);
      TailsAreShorter(codes, true, L);
      PrefixCodeFits(Tails(codes, false), L - 1);
      PrefixCodeFits(Tails(codes, true), L - 1);
    }
  }
}
