/** Sums over sequences, used for costs, Kraft sums and occurrence counts. */
module Sums {

  function Sum<T>(s: seq<T>, f: T -> nat): nat {
    if s == [] then 0 else f(s[0]) + Sum(s[1..], f)
  }

  lemma {:induction false} SumConcat<T>(a: seq<T>, b: seq<T>, f: T -> nat)
    ensures Sum(a + b, f) == Sum(a, f) + Sum(b, f)
  {
    if a == [] {
      assert a + b == b;
    } else {
      assert (a + b)[1..] == a[1..] + b;
      SumConcat(a[1..], b, f);
    }
  }

  lemma SumSingle<T>(x: T, f: T -> nat)
    ensures Sum([x], f) == f(x)
  {
    assert [x][1..] == [];
  }

  /** Taking out the element at k leaves the sum of the others. */
  lemma {:induction false} SumWithout<T>(s: seq<T>, k: nat, f: T -> nat)
    requires k < |s|
    ensures Sum(s, f) == f(s[k]) + Sum(s[..k] + s[k + 1..], f)
  {
    hide Sum;
    var a, b := s[..k], s[k + 1..];
    assert s == a + ([s[k]] + b);
    SumConcat(a, [s[k]] + b, f);
    SumConcat([s[k]], b, f);
    SumConcat(a, b, f);
    SumSingle(s[k], f);
  }

  lemma SumUpdate<T>(s: seq<T>, k: nat, x: T, f: T -> nat)
    requires k < |s|
    ensures Sum(s[k := x], f) + f(s[k]) == Sum(s, f) + f(x)
  {
    SumWithout(s, k, f);
    SumWithout(s[k := x], k, f);
    assert s[k := x][..k] == s[..k] && s[k := x][k + 1..] == s[k + 1..];
  }

  /** A sum does not depend on the order of its terms. */
  lemma {:induction false} SumPermutation<T>(s: seq<T>, t: seq<T>, f: T -> nat)
    requires multiset(s) == multiset(t)
    ensures Sum(s, f) == Sum(t, f)
  {
    if s == [] {
      assert |multiset(t)| == 0;
    } else {
      var k := FindOccurrence(s, t);
      SumWithout(t, k, f);
      SumPermutation(s[1..], t[..k] + t[k + 1..], f);
    }
  }

  /** The head of s occurs in every permutation t of s, and removing both keeps the permutation. */
  lemma FindOccurrence<T>(s: seq<T>, t: seq<T>) returns (k: nat)
    requires s != [] && multiset(s) == multiset(t)
    ensures k < |t| && t[k] == s[0]
    ensures multiset(s[1..]) == multiset(t[..k] + t[k + 1..])
  {
    assert s[0] in multiset(t);
    k :| k < |t| && t[k] == s[0];
    assert s == [s[0]] + s[1..];
    assert t == t[..k] + [t[k]] + t[k + 1..];
    assert multiset(s[1..]) == multiset(s) - multiset{s[0]};
    assert multiset(t[..k] + t[k + 1..]) == multiset(t) - multiset{t[k]};
  }

  /** Position i takes x, position j takes the last element, and the sequence loses its last position. */
  function Fold2<T>(s: seq<T>, i: nat, j: nat, x: T): (r: seq<T>)
    requires i < |s| && j < |s|
    ensures |r| == |s| - 1
    ensures i != j ==> forall k :: 0 <= k < |r| ==> r[k] == if k == j then s[|s| - 1] else if k == i then x else s[k]
  {
    s[i := x][j := s[|s| - 1]][..|s| - 1]
  }

  lemma UpdateItems<T>(s: seq<T>, k: nat, x: T)
    requires k < |s|
    ensures multiset(s[k := x]) + multiset{s[k]} == multiset(s) + multiset{x}
  {
  }

  lemma DropLastItems<T>(s: seq<T>)
    requires s != []
    ensures multiset(s[..|s| - 1]) + multiset{s[|s| - 1]} == multiset(s)
  {
    assert s == s[..|s| - 1] + [s[|s| - 1]];
  }

  lemma CombineItems<T>(m: multiset<T>, m1: multiset<T>, m2: multiset<T>, r: multiset<T>, a: T, b: T, x: T, last: T)
    requires m1 + multiset{a} == m + multiset{x}
    requires m2 + multiset{b} == m1 + multiset{last}
    requires r + multiset{last} == m2
    ensures r + multiset{a} + multiset{b} == m + multiset{x}
  {
    forall y ensures (r + multiset{a} + multiset{b})[y] == (m + multiset{x})[y] {
      assert (m1 + multiset{a})[y] == (m + multiset{x})[y];
      assert (m2 + multiset{b})[y] == (m1 + multiset{last})[y];
      assert (r + multiset{last})[y] == m2[y];
    }
  }

  /** Fold2 takes the elements at i and j out and puts x in. */
  lemma Fold2Items<T>(s: seq<T>, i: nat, j: nat, x: T)
    requires i < |s| && j < |s| && i != j && i != |s| - 1
    ensures multiset(Fold2(s, i, j, x)) + multiset{s[i]} + multiset{s[j]} == multiset(s) + multiset{x}
  {
    var last := s[|s| - 1];
    var s1 := s[i := x];
    var s2 := s1[j := last];
    UpdateItems(s, i, x);
    UpdateItems(s1, j, last);
    DropLastItems(s2);
    CombineItems(multiset(s), multiset(s1), multiset(s2), multiset(s2[..|s2| - 1]), s[i], s[j], x, last);
  }

  lemma Fold2Back<T>(s: seq<T>, i: nat, j: nat, x: T)
    requires i < |s| && j < |s| && i != j && i != |s| - 1
    ensures multiset(Fold2(s, i, j, x) + [s[i], s[j]]) == multiset(s + [x])
  {
    hide *;
    Fold2Items(s, i, j, x);
    assert multiset([s[i], s[j]]) == multiset{s[i]} + multiset{s[j]};
  }

  lemma SumTwo<T>(x: T, y: T, f: T -> nat)
    ensures Sum([x, y], f) == f(x) + f(y)
  {
    hide *;
    assert [x, y] == [x] + [y];
    SumConcat([x], [y], f);
    SumSingle(x, f);
    SumSingle(y, f);
  }

  lemma SumFold2<T>(s: seq<T>, i: nat, j: nat, x: T, f: T -> nat)
    requires i < |s| && j < |s| && i != j && i != |s| - 1
    ensures Sum(Fold2(s, i, j, x), f) + f(s[i]) + f(s[j]) == Sum(s, f) + f(x)
  {
    hide *;
    var r := Fold2(s, i, j, x);
    Fold2Back(s, i, j, x);
    SumPermutation(r + [s[i], s[j]], s + [x], f);
    SumConcat(r, [s[i], s[j]], f);
    SumConcat(s, [x], f);
    SumTwo(s[i], s[j], f);
    SumSingle(x, f);
  }

  lemma {:induction false} SumPointwise<T>(a: seq<T>, b: seq<T>, f: T -> nat)
    requires |a| == |b| && forall i :: 0 <= i < |a| ==> f(a[i]) == f(b[i])
    ensures Sum(a, f) == Sum(b, f)
  {
    if a != [] {
      assert f(a[0]) == f(b[0]);
      assert forall i :: 0 <= i < |a| - 1 ==> a[1..][i] == a[i + 1] && b[1..][i] == b[i + 1];
      SumPointwise(a[1..], b[1..], f);
    }
  }

  /** A term is at most the sum, and so are two terms together. */
  lemma {:induction false} SumAtLeast<T>(s: seq<T>, i: nat, f: T -> nat)
    requires i < |s|
    ensures Sum(s, f) >= f(s[i])
  {
    SumWithout(s, i, f);
  }

  lemma {:induction false} SumAtLeastTwo<T>(s: seq<T>, i: nat, j: nat, f: T -> nat)
    requires i < j < |s|
    ensures Sum(s, f) >= f(s[i]) + f(s[j])
  {
    SumWithout(s, j, f);
    assert (s[..j] + s[j + 1..])[i] == s[i];
    SumWithout(s[..j] + s[j + 1..], i, f);
  }

  /** A sum is zero only if all terms are. */
  lemma {:induction false} SumZero<T>(s: seq<T>, f: T -> nat)
    requires forall i :: 0 <= i < |s| ==> f(s[i]) == 0
    ensures Sum(s, f) == 0
  {
    if s != [] {
      assert forall i :: 0 <= i < |s| - 1 ==> s[1..][i] == s[i + 1];
      SumZero(s[1..], f);
    }
  }

  lemma {:induction false} SumPositive<T>(s: seq<T>, f: T -> nat) returns (i: nat)
    requires Sum(s, f) > 0
    ensures i < |s| && f(s[i]) > 0
  {
    if f(s[0]) > 0 {
      i := 0;
    } else {
      i := SumPositive(s[1..], f);
      i := i + 1;
    }
  }

  function Map<T, U>(s: seq<T>, f: T -> U): (r: seq<U>)
    ensures |r| == |s|
    ensures forall k :: 0 <= k < |s| ==> r[k] == f(s[k])
  {
    seq(|s|, k requires 0 <= k < |s| => f(s[k]))
  }

  lemma {:induction false} MapPermutation<T, U>(s: seq<T>, t: seq<T>, f: T -> U)
    requires multiset(s) == multiset(t)
    ensures multiset(Map(s, f)) == multiset(Map(t, f))
  {
    if s == [] {
      assert |multiset(t)| == 0;
    } else {
      var k := FindOccurrence(s, t);
      MapPermutation(s[1..], t[..k] + t[k + 1..], f);
      assert Map(s, f) == [f(s[0])] + Map(s[1..], f);
      var rest := Map(t[..k] + t[k + 1..], f);
      assert Map(t, f) == rest[..k] + [f(t[k])] + rest[k..];
      assert rest == rest[..k] + rest[k..];
    }
  }
}
