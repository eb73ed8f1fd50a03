module MergeCost {
  // Lower bounds on weighted code lengths, and why merging the two smallest weights keeps them.

  import opened Sums

  function Pow2(n: nat): (r: nat)
    ensures r >= 1
  {
    if n == 0 then 1 else 2 * Pow2(n - 1)
  }

  function Zip(ws: seq<nat>, ls: seq<nat>): (r: seq<(nat, nat)>)
    requires |ws| == |ls|
  {
    seq(|ws|, k requires 0 <= k < |ws| => (ws[k], ls[k]))
  }

  function Product(p: (nat, nat)): nat {
    p.0 * p.1
  }

  /** The total length of all weighted code words. */
  function Dot(ws: seq<nat>, ls: seq<nat>): nat
    requires |ws| == |ls|
  {
    Sum(Zip(ws, ls), Product)
  }

  /** The share of 2^L that a code word of length l uses up. */
  function Slot(l: nat, L: nat): nat {
    if l <= L then Pow2(L - l) else 0
  }

  function SlotAt(L: nat): nat -> nat {
    l => Slot(l, L)
  }

  function KraftSum(ls: seq<nat>, L: nat): nat {
    Sum(ls, SlotAt(L))
  }

  ghost predicate AtMost(ls: seq<nat>, L: nat) {
    forall k :: 0 <= k < |ls| ==> ls[k] <= L
  }

  /** The Kraft inequality, scaled by 2^L for a bound L on the lengths. */
  ghost predicate Fits(ls: seq<nat>, L: nat) {
    AtMost(ls, L) && KraftSum(ls, L) <= Pow2(L)
  }

  ghost predicate LowerBound(ws: seq<nat>, c: nat) {
    forall ls: seq<nat>, L: nat :: |ls| == |ws| && Fits(ls, L) ==> c <= Dot(ws, ls)
  }

  /** i and j are positions of two smallest weights. */
  ghost predicate TwoSmallest(ws: seq<nat>, i: nat, j: nat) {
    i < |ws| && j < |ws| && i != j &&
    forall k :: 0 <= k < |ws| && k != i && k != j ==> ws[i] <= ws[k] && ws[j] <= ws[k]
  }

  lemma DotUpdate(ws: seq<nat>, ls: seq<nat>, k: nat, l: nat)
    requires |ws| == |ls| && k < |ws|
    ensures Dot(ws, ls[k := l]) + ws[k] * ls[k] == Dot(ws, ls) + ws[k] * l
  {
    assert Zip(ws, ls[k := l]) == Zip(ws, ls)[k := (ws[k], l)];
    SumUpdate(Zip(ws, ls), k, (ws[k], l), Product);
  }

  lemma KraftUpdate(ls: seq<nat>, k: nat, l: nat, L: nat)
    requires k < |ls|
    ensures KraftSum(ls[k := l], L) + Slot(ls[k], L) == KraftSum(ls, L) + Slot(l, L)
  {
    SumUpdate(ls, k, l, SlotAt(L));
  }

  lemma DotConcat(a: seq<nat>, b: seq<nat>, c: seq<nat>, d: seq<nat>)
    requires |a| == |c| && |b| == |d|
    ensures Dot(a + b, c + d) == Dot(a, c) + Dot(b, d)
  {
    assert Zip(a + b, c + d) == Zip(a, c) + Zip(b, d);
    SumConcat(Zip(a, c), Zip(b, d), Product);
  }

  // ---- scaling and parity ----

  lemma {:induction false} KraftScale(ls: seq<nat>, L: nat)
    requires AtMost(ls, L)
    ensures KraftSum(ls, L + 1) == 2 * KraftSum(ls, L)
  {
    if ls != [] {
      KraftScale(ls[1..], L);
    }
  }

  /** If no length reaches L the sum at L is even. */
  lemma {:induction false} KraftEven(ls: seq<nat>, L: nat)
    requires L >= 1 && forall k :: 0 <= k < |ls| ==> ls[k] < L
    ensures KraftSum(ls, L) % 2 == 0
  {
    if ls != [] {
      KraftEven(ls[1..], L);
      assert Slot(ls[0], L) == 2 * Pow2(L - ls[0] - 1);
    }
  }

  lemma {:induction false} KraftAllZero(ls: seq<nat>)
    requires AtMost(ls, 0)
    ensures KraftSum(ls, 0) == |ls|
  {
    if ls != [] {
      KraftAllZero(ls[1..]);
    }
  }

  // ---- the exchange argument ----

  /** Swapping the lengths at i and a, where the weight at i is the smaller, never costs more. */
  lemma SwapLengths(ws: seq<nat>, ls: seq<nat>, L: nat, i: nat, a: nat) returns (r: seq<nat>)
    requires |ws| == |ls| && i < |ws| && a < |ws| && i != a
    requires ws[i] <= ws[a] && ls[i] <= ls[a] && Fits(ls, L)
    ensures r == ls[i := ls[a]][a := ls[i]]
    ensures Fits(r, L) && Dot(ws, r) <= Dot(ws, ls)
  {
    var r1 := ls[i := ls[a]];
    r := r1[a := ls[i]];
    DotUpdate(ws, ls, i, ls[a]);
    DotUpdate(ws, r1, a, ls[i]);
    KraftUpdate(ls, i, ls[a], L);
    KraftUpdate(r1, a, ls[i], L);
    SwapProducts(ws[i], ws[a], ls[i], ls[a]);
  }

  lemma SwapProducts(v: nat, w: nat, l: nat, m: nat)
    requires v <= w && l <= m
    ensures v * m + w * l <= v * l + w * m
  {
    assert (w - v) * (m - l) >= 0;
  }

  /** Lengths can be changed, at no extra cost, so that the two smallest weights are deepest. */
  lemma {:induction false} PairAtBottom(ws: seq<nat>, ls: seq<nat>, L: nat, i: nat, j: nat)
    returns (r: seq<nat>, M: nat)
    requires |ws| == |ls| && TwoSmallest(ws, i, j) && Fits(ls, L)
    ensures |r| == |ws| && Fits(r, M) && Dot(ws, r) <= Dot(ws, ls)
    ensures M >= 1 && r[i] == M && r[j] == M
    decreases L, Total(ls)
  {
    if L == 0 {
      KraftAllZero(ls);
      r, M := ls, L;
      assert false;
    } else if forall a :: 0 <= a < |ls| ==> ls[a] != L {
      KraftScale(ls, L - 1);
      r, M := PairAtBottom(ws, ls, L - 1, i, j);
    } else {
      var a :| 0 <= a < |ls| && ls[a] == L;
      if forall b :: 0 <= b < |ls| && b != a ==> ls[b] != L {
        var shorter := ShortenLonely(ws, ls, L, a);
        r, M := PairAtBottom(ws, shorter, L, i, j);
      } else {
        var b :| 0 <= b < |ls| && b != a && ls[b] == L;
        r := PullDown(ws, ls, L, i, j, a, b);
        M := L;
      }
    }
  }

  function Same(l: nat): nat {
    l
  }

  function Total(ls: seq<nat>): nat {
    Sum(ls, Same)
  }

  /** A length that is alone at the bottom can be shortened: the Kraft sum is odd, so there is room. */
  lemma ShortenLonely(ws: seq<nat>, ls: seq<nat>, L: nat, a: nat) returns (r: seq<nat>)
    requires |ws| == |ls| && L >= 1 && Fits(ls, L) && a < |ls| && ls[a] == L
    requires forall b :: 0 <= b < |ls| && b != a ==> ls[b] != L
    ensures |r| == |ls| && Fits(r, L) && Dot(ws, r) <= Dot(ws, ls)
    ensures Total(r) < Total(ls)
  {
    hide *;
    r := ls[a := L - 1];
    LonelyFits(ls, L, a);
    DotUpdate(ws, ls, a, L - 1);
    ProductsOrdered(ws[a], L - 1, L);
    TotalUpdate(ls, a, L - 1);
  }

  lemma ProductsOrdered(w: nat, l: nat, m: nat)
    requires l <= m
    ensures w * l <= w * m
  {
  }

  lemma TotalUpdate(ls: seq<nat>, a: nat, l: nat)
    requires a < |ls|
    ensures Total(ls[a := l]) + ls[a] == Total(ls) + l
  {
    SumUpdate<nat>(ls, a, l, Same);
  }

  lemma LonelyFits(ls: seq<nat>, L: nat, a: nat)
    requires L >= 1 && Fits(ls, L) && a < |ls| && ls[a] == L
    requires forall b :: 0 <= b < |ls| && b != a ==> ls[b] != L
    ensures Fits(ls[a := L - 1], L)
  {
    hide KraftSum, Pow2, Slot;
    KraftEven(ls[a := L - 1], L);
    KraftUpdate(ls, a, L - 1, L);
    TopSlots(L);
  }

  lemma {:induction false} TopSlots(L: nat)
    requires L >= 1
    ensures Slot(L, L) == 1 && Slot(L - 1, L) == 2 && Pow2(L) % 2 == 0
  {
    assert Pow2(L) == 2 * Pow2(L - 1) && Pow2(1) == 2;
  }

  /** With two lengths at the bottom, the two smallest weights can be swapped there. */
  lemma PullDown(ws: seq<nat>, ls: seq<nat>, L: nat, i: nat, j: nat, a: nat, b: nat) returns (r: seq<nat>)
    requires |ws| == |ls| && TwoSmallest(ws, i, j) && Fits(ls, L)
    requires a < |ls| && b < |ls| && a != b && ls[a] == L && ls[b] == L
    ensures |r| == |ls| && Fits(r, L) && Dot(ws, r) <= Dot(ws, ls) && r[i] == L && r[j] == L
  {
    r := ls;
    if r[i] != L {
      var x := if a == j then b else a;
      r := SwapLengths(ws, r, L, i, x);
    }
    if r[j] != L {
      var y := if ls[i] == L then (if a == i then b else a) else if a == j then a else b;
      assert y != j && y != i && r[y] == L;
      r := SwapLengths(ws, r, L, j, y);
    }
  }

  /** Merging the two smallest weights into one: a lower bound for the rest gives one for the whole. */
  lemma MergeTwoSmallest(ws: seq<nat>, i: nat, j: nat, c: nat)
    requires TwoSmallest(ws, i, j) && i != |ws| - 1
    requires LowerBound(Fold2(ws, i, j, ws[i] + ws[j]), c)
    ensures LowerBound(ws, c + ws[i] + ws[j])
  {
    forall ls: seq<nat>, L: nat | |ls| == |ws| && Fits(ls, L)
      ensures c + ws[i] + ws[j] <= Dot(ws, ls)
    {
      var r, M := PairAtBottom(ws, ls, L, i, j);
      MergeLengths(ws, r, M, i, j);
    }
  }

  lemma ZipFold2(ws: seq<nat>, r: seq<nat>, i: nat, j: nat, t: nat, l: nat)
    requires |ws| == |r| && i < |ws| && j < |ws|
    ensures Zip(Fold2(ws, i, j, t), Fold2(r, i, j, l)) == Fold2(Zip(ws, r), i, j, (t, l))
  {
  }

  lemma MergeLengths(ws: seq<nat>, r: seq<nat>, M: nat, i: nat, j: nat)
    requires |ws| == |r| && i < |ws| && j < |ws| && i != j && i != |ws| - 1
    requires Fits(r, M) && M >= 1 && r[i] == M && r[j] == M
    ensures Fits(Fold2(r, i, j, M - 1), M)
    ensures Dot(ws, r) == Dot(Fold2(ws, i, j, ws[i] + ws[j]), Fold2(r, i, j, M - 1)) + ws[i] + ws[j]
  {
    MergedFits(r, M, i, j);
    MergedDot(ws, r, M, i, j);
  }

  lemma MergedFits(r: seq<nat>, M: nat, i: nat, j: nat)
    requires i < |r| && j < |r| && i != j && i != |r| - 1
    requires Fits(r, M) && M >= 1 && r[i] == M && r[j] == M
    ensures Fits(Fold2(r, i, j, M - 1), M)
  {
    SumFold2<nat>(r, i, j, M - 1, SlotAt(M));
    TopSlots(M);
  }

  lemma MergedDot(ws: seq<nat>, r: seq<nat>, M: nat, i: nat, j: nat)
    requires |ws| == |r| && i < |ws| && j < |ws| && i != j && i != |ws| - 1
    requires M >= 1 && r[i] == M && r[j] == M
    ensures Dot(ws, r) == Dot(Fold2(ws, i, j, ws[i] + ws[j]), Fold2(r, i, j, M - 1)) + ws[i] + ws[j]
  {
    var t := ws[i] + ws[j];
    ZipFold2(ws, r, i, j, t, M - 1);
    SumFold2<(nat, nat)>(Zip(ws, r), i, j, (t, M - 1), Product);
    MergedProducts(ws[i], ws[j], M);
  }

  lemma MergedProducts(v: nat, w: nat, M: nat)
    requires M >= 1
    ensures (v + w) * (M - 1) + v + w == v * M + w * M
  {
  }

  /** The order of the weights does not matter: the lengths can be carried along. */
  lemma {:induction false} Transport(ws: seq<nat>, ls: seq<nat>, vs: seq<nat>, L: nat) returns (ms: seq<nat>)
    requires |ws| == |ls| && multiset(ws) == multiset(vs) && AtMost(ls, L)
    ensures |ms| == |vs| && Dot(vs, ms) == Dot(ws, ls)
    ensures KraftSum(ms, L) == KraftSum(ls, L) && AtMost(ms, L)
  {
    if vs == [] {
      assert |multiset(ws)| == 0;
      ms := [];
    } else {
      var k := FindOccurrence(vs, ws);
      var rest := Transport(ws[..k] + ws[k + 1..], ls[..k] + ls[k + 1..], vs[1..], L);
      ms := [ls[k]] + rest;
      SumWithout(ls, k, SlotAt(L));
      SumWithout(Zip(ws, ls), k, Product);
      assert Zip(ws, ls)[..k] + Zip(ws, ls)[k + 1..] == Zip(ws[..k] + ws[k + 1..], ls[..k] + ls[k + 1..]);
      assert Zip(vs, ms)[1..] == Zip(vs[1..], rest);
    }
  }

  lemma LowerBoundPermutation(ws: seq<nat>, vs: seq<nat>, c: nat)
    requires multiset(ws) == multiset(vs) && LowerBound(ws, c)
    ensures LowerBound(vs, c)
  {
    assert |ws| == |multiset(ws)| == |multiset(vs)| == |vs|;
    forall ls: seq<nat>, L: nat | |ls| == |vs| && Fits(ls, L)
      ensures c <= Dot(vs, ls)
    {
      var ms := Transport(vs, ls, ws, L);
      assert Fits(ms, L);
    }
  }
}
