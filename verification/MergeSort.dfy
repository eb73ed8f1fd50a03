// Merge sort on sequences with any comparison: coursedesign/exam/exam/slist.c as a function.
module MergeSort {
  /** The comparison orders all items totally; items may be equal to one another. */
  ghost predicate TotalPreorder<T(!new)>(cmp: (T, T) -> int) {
    (forall x, y :: cmp(x, y) <= 0 || cmp(y, x) <= 0) &&
    forall x, y, z :: cmp(x, y) <= 0 && cmp(y, z) <= 0 ==> cmp(x, z) <= 0
  }

  /** The merge of two lists: the head of the left one goes first unless that of the right one is smaller. */
  function Merge<N, T>(a: seq<N>, b: seq<N>, key: N -> T, cmp: (T, T) -> int): (r: seq<N>)
    ensures |r| == |a| + |b|
  {
    if a == [] then b
    else if b == [] then a
    else if cmp(key(a[0]), key(b[0])) <= 0 then [a[0]] + Merge(a[1..], b, key, cmp)
    else [b[0]] + Merge(a, b[1..], key, cmp)
  }

  /** The list is cut after its first half, both parts are sorted and then merged. */
  function Sort<N, T>(s: seq<N>, key: N -> T, cmp: (T, T) -> int): (r: seq<N>)
    ensures |r| == |s|
    decreases |s|
  {
    if |s| < 2 then s
    else Merge(Sort(s[..|s| / 2], key, cmp), Sort(s[|s| / 2..], key, cmp), key, cmp)
  }

  predicate Ordered<N, T>(s: seq<N>, key: N -> T, cmp: (T, T) -> int) {
    forall i, j :: 0 <= i < j < |s| ==> cmp(key(s[i]), key(s[j])) <= 0
  }

  lemma {:induction false} MergeEnd<N, T>(a: seq<N>, b: seq<N>, key: N -> T, cmp: (T, T) -> int)
    ensures a == [] ==> Merge(a, b, key, cmp) == b
    ensures b == [] ==> Merge(a, b, key, cmp) == a
  {
  }

  lemma {:induction false} TakeLeft<N, T>(a: seq<N>, b: seq<N>, key: N -> T, cmp: (T, T) -> int)
    requires a != [] && b != [] && cmp(key(a[0]), key(b[0])) <= 0
    ensures Merge(a, b, key, cmp) == [a[0]] + Merge(a[1..], b, key, cmp)
  {
  }

  lemma {:induction false} TakeRight<N, T>(a: seq<N>, b: seq<N>, key: N -> T, cmp: (T, T) -> int)
    requires a != [] && b != [] && cmp(key(a[0]), key(b[0])) > 0
    ensures Merge(a, b, key, cmp) == [b[0]] + Merge(a, b[1..], key, cmp)
  {
  }

  lemma HeadAndTail<N>(s: seq<N>)
    requires s != []
    ensures s == [s[0]] + s[1..]
  {
  }

  lemma {:induction false} MergeItems<N, T>(a: seq<N>, b: seq<N>, key: N -> T, cmp: (T, T) -> int)
    ensures multiset(Merge(a, b, key, cmp)) == multiset(a) + multiset(b)
  {
    hide *;
    MergeEnd(a, b, key, cmp);
    if a != [] && b != [] {
      if cmp(key(a[0]), key(b[0])) <= 0 {
        TakeLeft(a, b, key, cmp);
        HeadAndTail(a);
        MergeItems(a[1..], b, key, cmp);
      } else {
        TakeRight(a, b, key, cmp);
        HeadAndTail(b);
        MergeItems(a, b[1..], key, cmp);
      }
    }
  }

  lemma {:induction false} Merged<N, T>(a: seq<N>, b: seq<N>, key: N -> T, cmp: (T, T) -> int, y: N)
    requires y in Merge(a, b, key, cmp)
    ensures y in a || y in b
  {
    hide *;
    MergeItems(a, b, key, cmp);
    assert y in multiset(a) + multiset(b);
  }

  lemma {:induction false} MergeOrdered<N, T(!new)>(a: seq<N>, b: seq<N>, key: N -> T, cmp: (T, T) -> int)
    requires TotalPreorder(cmp) && Ordered(a, key, cmp) && Ordered(b, key, cmp)
    ensures Ordered(Merge(a, b, key, cmp), key, cmp)
  {
    hide *;
    MergeEnd(a, b, key, cmp);
    if a != [] && b != [] {
      if cmp(key(a[0]), key(b[0])) <= 0 {
        TakeLeft(a, b, key, cmp);
        OrderedTail(a, key, cmp);
        MergeOrdered(a[1..], b, key, cmp);
        forall y | y in Merge(a[1..], b, key, cmp) ensures cmp(key(a[0]), key(y)) <= 0 {
          Merged(a[1..], b, key, cmp, y);
          InOrder(a, b, key, cmp, y);
        }
        PutFirst(a[0], Merge(a[1..], b, key, cmp), key, cmp);
      } else {
        TakeRight(a, b, key, cmp);
        OrderedTail(b, key, cmp);
        MergeOrdered(a, b[1..], key, cmp);
        AnyTwo(key(a[0]), key(b[0]), cmp);
        forall y | y in Merge(a, b[1..], key, cmp) ensures cmp(key(b[0]), key(y)) <= 0 {
          Merged(a, b[1..], key, cmp, y);
          InOrder(b, a, key, cmp, y);
        }
        PutFirst(b[0], Merge(a, b[1..], key, cmp), key, cmp);
      }
    }
  }

  lemma OrderedTail<N, T>(s: seq<N>, key: N -> T, cmp: (T, T) -> int)
    requires Ordered(s, key, cmp) && s != []
    ensures Ordered(s[1..], key, cmp)
  {
  }

  lemma AnyTwo<T(!new)>(x: T, y: T, cmp: (T, T) -> int)
    requires TotalPreorder(cmp)
    ensures cmp(x, y) <= 0 || cmp(y, x) <= 0
  {
  }

  /** The head of a, when not after that of b, is after no item of either. */
  lemma InOrder<N, T(!new)>(a: seq<N>, b: seq<N>, key: N -> T, cmp: (T, T) -> int, y: N)
    requires TotalPreorder(cmp) && Ordered(a, key, cmp) && Ordered(b, key, cmp)
    requires a != [] && (y in a || (b != [] && cmp(key(a[0]), key(b[0])) <= 0 && y in b))
    ensures cmp(key(a[0]), key(y)) <= 0
  {
    if y in a {
      FirstIsLeast(a, key, cmp, y);
    } else {
      FirstIsLeast(b, key, cmp, y);
    }
  }

  lemma FirstIsLeast<N, T(!new)>(s: seq<N>, key: N -> T, cmp: (T, T) -> int, y: N)
    requires TotalPreorder(cmp) && Ordered(s, key, cmp) && y in s
    ensures cmp(key(s[0]), key(y)) <= 0
  {
    AnyTwo(key(s[0]), key(s[0]), cmp);
  }

  lemma PutFirst<N, T>(x: N, s: seq<N>, key: N -> T, cmp: (T, T) -> int)
    requires Ordered(s, key, cmp) && forall y :: y in s ==> cmp(key(x), key(y)) <= 0
    ensures Ordered([x] + s, key, cmp)
  {
    var r := [x] + s;
    forall i, j | 0 <= i < j < |r| ensures cmp(key(r[i]), key(r[j])) <= 0 {
      assert r[j] == s[j - 1];
      if i > 0 {
        assert r[i] == s[i - 1];
      }
    }
  }

  // ---- stability ----

  predicate Same<N, T>(x: N, y: N, key: N -> T, cmp: (T, T) -> int) {
    cmp(key(x), key(y)) <= 0 && cmp(key(y), key(x)) <= 0
  }

  /** The items that are equal to x, in their order. */
  function EqualTo<N, T>(s: seq<N>, x: N, key: N -> T, cmp: (T, T) -> int): seq<N> {
    if s == [] then [] else (if Same(s[0], x, key, cmp) then [s[0]] else []) + EqualTo(s[1..], x, key, cmp)
  }

  lemma {:induction false} EqualToHead<N, T>(y: N, s: seq<N>, x: N, key: N -> T, cmp: (T, T) -> int)
    ensures EqualTo([y] + s, x, key, cmp) == (if Same(y, x, key, cmp) then [y] else []) + EqualTo(s, x, key, cmp)
  {
    assert ([y] + s)[1..] == s;
  }

  lemma EqualToNone<N, T>(x: N, key: N -> T, cmp: (T, T) -> int)
    ensures EqualTo([], x, key, cmp) == []
  {
  }

  lemma {:induction false} EqualToAppend<N, T>(a: seq<N>, b: seq<N>, x: N, key: N -> T, cmp: (T, T) -> int)
    ensures EqualTo(a + b, x, key, cmp) == EqualTo(a, x, key, cmp) + EqualTo(b, x, key, cmp)
  {
    hide *;
    if a == [] {
      EqualToNone(x, key, cmp);
      assert a + b == b;
    } else {
      HeadAndTail(a);
      assert a + b == [a[0]] + (a[1..] + b);
      EqualToHead(a[0], a[1..], x, key, cmp);
      EqualToHead(a[0], a[1..] + b, x, key, cmp);
      EqualToAppend(a[1..], b, x, key, cmp);
    }
  }

  lemma {:induction false} NoneEqual<N, T>(s: seq<N>, x: N, key: N -> T, cmp: (T, T) -> int)
    requires forall y :: y in s ==> !Same(y, x, key, cmp)
    ensures EqualTo(s, x, key, cmp) == []
  {
    if s != [] {
      NoneEqual(s[1..], x, key, cmp);
    }
  }

  /** Merging keeps equal items in their order, those of the left list first. */
  lemma {:induction false} MergeStable<N, T(!new)>(a: seq<N>, b: seq<N>, x: N, key: N -> T, cmp: (T, T) -> int)
    requires TotalPreorder(cmp) && Ordered(a, key, cmp) && Ordered(b, key, cmp)
    ensures EqualTo(Merge(a, b, key, cmp), x, key, cmp) == EqualTo(a, x, key, cmp) + EqualTo(b, x, key, cmp)
  {
    hide *;
    MergeEnd(a, b, key, cmp);
    EqualToNone(x, key, cmp);
    if a != [] && b != [] {
      if cmp(key(a[0]), key(b[0])) <= 0 {
        TakeLeft(a, b, key, cmp);
        HeadAndTail(a);
        OrderedTail(a, key, cmp);
        MergeStable(a[1..], b, x, key, cmp);
        EqualToHead(a[0], Merge(a[1..], b, key, cmp), x, key, cmp);
        EqualToHead(a[0], a[1..], x, key, cmp);
      } else {
        TakeRight(a, b, key, cmp);
        HeadAndTail(b);
        OrderedTail(b, key, cmp);
        MergeStable(a, b[1..], x, key, cmp);
        EqualToHead(b[0], Merge(a, b[1..], key, cmp), x, key, cmp);
        EqualToHead(b[0], b[1..], x, key, cmp);
        NoneBehind(a, b[0], x, key, cmp);
      }
    }
  }

  /** An item that is before the head of a has no equal in a. */
  lemma {:induction false} NoneBehind<N, T(!new)>(a: seq<N>, q: N, x: N, key: N -> T, cmp: (T, T) -> int)
    requires TotalPreorder(cmp) && Ordered(a, key, cmp) && a != [] && cmp(key(a[0]), key(q)) > 0
    ensures Same(q, x, key, cmp) ==> EqualTo(a, x, key, cmp) == []
  {
    hide *;
    if Same(q, x, key, cmp) {
      forall y | y in a ensures !Same(y, x, key, cmp) {
        FirstIsLeast(a, key, cmp, y);
        Larger(a[0], q, y, x, key, cmp);
      }
      NoneEqual(a, x, key, cmp);
    }
  }

  lemma Larger<N, T(!new)>(p: N, q: N, y: N, x: N, key: N -> T, cmp: (T, T) -> int)
    requires TotalPreorder(cmp) && cmp(key(p), key(y)) <= 0 && Same(q, x, key, cmp)
    ensures Same(y, x, key, cmp) ==> cmp(key(p), key(q)) <= 0
  {
    if Same(y, x, key, cmp) {
      assert cmp(key(p), key(x)) <= 0;
    }
  }

  lemma {:induction false} SortItems<N, T>(s: seq<N>, key: N -> T, cmp: (T, T) -> int)
    ensures multiset(Sort(s, key, cmp)) == multiset(s)
    decreases |s|
  {
    hide Merge;
    if |s| >= 2 {
      var (a, b) := (s[..|s| / 2], s[|s| / 2..]);
      assert s == a + b;
      SortItems(a, key, cmp);
      SortItems(b, key, cmp);
      MergeItems(Sort(a, key, cmp), Sort(b, key, cmp), key, cmp);
    }
  }

  /** Sorting gives the same items, in order, and equal items keep their order. */
  lemma {:induction false} SortIsStable<N, T(!new)>(s: seq<N>, key: N -> T, cmp: (T, T) -> int, x: N)
    requires TotalPreorder(cmp)
    ensures Ordered(Sort(s, key, cmp), key, cmp) && multiset(Sort(s, key, cmp)) == multiset(s)
    ensures EqualTo(Sort(s, key, cmp), x, key, cmp) == EqualTo(s, x, key, cmp)
    decreases |s|
  {
    hide TotalPreorder, Merge, EqualTo;
    if |s| >= 2 {
      var (a, b) := (s[..|s| / 2], s[|s| / 2..]);
      assert s == a + b;
      SortIsStable(a, key, cmp, x);
      SortIsStable(b, key, cmp, x);
      MergeItems(Sort(a, key, cmp), Sort(b, key, cmp), key, cmp);
      MergeOrdered(Sort(a, key, cmp), Sort(b, key, cmp), key, cmp);
      MergeStable(Sort(a, key, cmp), Sort(b, key, cmp), x, key, cmp);
      EqualToAppend(a, b, x, key, cmp);
    }
  }
}
