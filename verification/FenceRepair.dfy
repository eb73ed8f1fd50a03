module FenceRepair {
  // acm/pccb/ch2/2.2.4.2.cpp: joining boards at least cost, by the two shortest boards first.

  import opened Sums
  import opened MergeCost
  import opened MergeTree

  /** The boards, numbered. */
  function Boards(lengths: seq<nat>): (r: seq<(nat, nat)>) {
    seq(|lengths|, k requires 0 <= k < |lengths| => (k, lengths[k]))
  }

  lemma Start(lengths: seq<nat>) returns (forest: seq<Tree<nat>>)
    ensures ForestWeights(forest) == lengths && ForestCost(forest) == 0
    ensures Joined(Boards(lengths), forest)
  {
    var boards := Boards(lengths);
    forest := Map(boards, Single());
    JoinedAtFirst(boards);
    SinglesCost(boards);
  }

  // Replaces the two shortest of the first m boards by their sum, until one is left. The total printed
  // is the least cost over all binary trees whose leaves are the boards.
  method Solve(L: array<nat>, n: nat) returns (ans: nat)
    requires n <= L.Length
    modifies L
    ensures n == 0 ==> ans == 0
    ensures n > 0 ==> LeastCost(Boards(old(L[..n])), ans)
  {
    hide *;
    ghost var cur := L[..n];
    ghost var boards := Boards(cur);
    ghost var forest := Start(cur);
    ans := 0;
    var m := n;
    while m > 1
      invariant m <= n && (n > 0 ==> m > 0) && (n == 0 ==> ans == 0)
      invariant cur == L[..m] && cur == ForestWeights(forest) && ForestCost(forest) == ans && Joined(boards, forest)
    {
      var mii1, mii2 := FindTwoShortest(L, m);
      TwoSmallestSwap(cur, mii1, mii2);
      var t := L[mii1] + L[mii2];
      ans := ans + t;
      if mii1 == m - 1 {
        mii1, mii2 := mii2, mii1;
      }
      JoinTwo(boards, forest, mii1, mii2);
      MergeForestCost(forest, mii1, mii2);
      forest, cur := Fold2(forest, mii1, mii2, Node(forest[mii1], forest[mii2])), Fold2(cur, mii1, mii2, t);
      L[mii1] := t;
      L[mii2] := L[m - 1];
      m := m - 1;
    }
    if n > 0 {
      JoinedAtLast(boards, forest);
      SingleCost(forest);
    }
  }

  lemma TwoSmallestSwap(ws: seq<nat>, i: nat, j: nat)
    requires TwoSmallest(ws, i, j)
    ensures TwoSmallest(ws, j, i)
  {
  }

  method FindTwoShortest(L: array<nat>, m: nat) returns (mii1: nat, mii2: nat)
    requires 2 <= m <= L.Length
    ensures mii1 < m && mii2 < m && mii1 != mii2
    ensures TwoSmallest(L[..m], mii1, mii2) && L[mii1] <= L[mii2]
  {
    mii1, mii2 := 0, 1;
    if L[mii1] > L[mii2] {
      mii1, mii2 := mii2, mii1;
    }
    for i := 2 to m
      invariant TwoSmallest(L[..i], mii1, mii2) && L[mii1] <= L[mii2]
    {
      if L[i] < L[mii1] {
        mii2 := mii1;
        mii1 := i;
      } else if L[i] < L[mii2] {
        mii2 := i;
      }
    }
  }
}
