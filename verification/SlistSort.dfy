/** slist_sort of coursedesign/exam/exam/slist.c: a destructive merge sort of linked nodes. */
module SlistSort {
  import opened MergeSort

  class SList<T(0)> {
    var next: SList?<T>
    const userdata: T

    constructor ()
    {
    }
  }

  function Data<T(0)>(n: SList<T>): T {
    n.userdata
  }

  function After<T(0)>(s: seq<SList<T>>, i: nat, end: SList?<T>): SList?<T> {
    if i + 1 < |s| then s[i + 1] else end
  }

  ghost function Nodes<T(0)>(s: seq<SList<T>>): set<SList<T>> {
    set x | x in s
  }

  /** Each node is linked to the one behind it, and the last one to end. */
  ghost predicate Linked<T(0)>(s: seq<SList<T>>, end: SList?<T>)
    reads Nodes(s)`next
  {
    forall i :: 0 <= i < |s| ==> s[i].next == After(s, i, end)
  }

  ghost predicate Distinct<T(0)>(s: seq<SList<T>>) {
    forall i, j :: 0 <= i < j < |s| ==> s[i] != s[j]
  }

  ghost predicate Apart<T(0)>(s: seq<SList<T>>, t: seq<SList<T>>) {
    Nodes(s) !! Nodes(t)
  }

  lemma NotIn<T(0)>(s: seq<SList<T>>, t: seq<SList<T>>, x: SList<T>)
    requires Apart(s, t)
    ensures x in s ==> x !in t
    ensures x in t ==> x !in s
  {
    assert x in s <==> x in Nodes(s);
    assert x in t <==> x in Nodes(t);
  }

  function Head<T(0)>(s: seq<SList<T>>): SList?<T> {
    if s == [] then null else s[0]
  }

  /** p is the list of exactly the nodes in s. */
  ghost predicate IsList<T(0)>(p: SList?<T>, s: seq<SList<T>>)
    reads Nodes(s)`next
  {
    p == Head(s) && Linked(s, null) && Distinct(s)
  }

  lemma ListTail<T(0)>(p: SList?<T>, s: seq<SList<T>>)
    requires IsList(p, s) && s != []
    ensures IsList(s[0].next, s[1..]) && s[0] !in s[1..]
  {
  }

  lemma LinkedAppend<T(0)>(s: seq<SList<T>>, t: seq<SList<T>>, end: SList?<T>)
    requires t != [] && Linked(s, t[0]) && Linked(t, end)
    ensures Linked(s + t, end)
  {
    var r := s + t;
    forall i | 0 <= i < |r| ensures r[i].next == After(r, i, end) {
      if i < |s| {
        assert s[i].next == After(s, i, t[0]);
      } else {
        assert t[i - |s|].next == After(t, i - |s|, end);
      }
    }
  }

  lemma DistinctAppend<T(0)>(s: seq<SList<T>>, t: seq<SList<T>>)
    requires Distinct(s) && Distinct(t) && Apart(s, t)
    ensures Distinct(s + t)
  {
    var r := s + t;
    forall i, j | 0 <= i < j < |r| ensures r[i] != r[j] {
      if i < |s| <= j {
        assert r[i] in s && r[j] == t[j - |s|] && r[j] in t;
        NotIn(s, t, r[i]);
      } else if |s| <= i {
        assert r[i] == t[i - |s|] && r[j] == t[j - |s|];
      }
    }
  }

  /** Linking the last node anew keeps the links up to it, and all lists it is not on. */
  method Link<T(0)>(insert: SList<T>, to: SList?<T>, ghost done: seq<SList<T>>, ghost left: SList?<T>, ghost p: seq<SList<T>>,
    ghost right: SList?<T>, ghost q: seq<SList<T>>)
    requires Merging(done, insert, left, p, right, q)
    modifies insert`next
    ensures insert.next == to && Merging(done, insert, left, p, right, q)
  {
    NotIn(done, p, insert);
    NotIn(done, q, insert);
    insert.next := to;
  }

  // ---- merging ----

  /** The nodes merged so far are linked up to insert; what is left of the two lists is still in order. */
  ghost predicate Merging<T(0)>(done: seq<SList<T>>, insert: SList<T>, left: SList?<T>, p: seq<SList<T>>, right: SList?<T>, q: seq<SList<T>>)
    reads Nodes(done)`next, Nodes(p)`next, Nodes(q)`next
  {
    done != [] && insert == done[|done| - 1] && Linked(done, insert.next) && Distinct(done) &&
    IsList(left, p) && IsList(right, q) && Apart(done, p) && Apart(done, q) && Apart(p, q)
  }

  lemma MoveNode<T(0)>(done: seq<SList<T>>, p: seq<SList<T>>, q: seq<SList<T>>)
    requires Apart(done, p) && Apart(done, q) && Apart(p, q) && p != [] && p[0] !in p[1..]
    ensures Apart(done, [p[0]]) && Apart(done + [p[0]], p[1..]) && Apart(done + [p[0]], q) && Apart(p[1..], q)
  {
    assert Nodes(p[1..]) <= Nodes(p) && p[0] in Nodes(p);
    assert Nodes(done + [p[0]]) == Nodes(done) + {p[0]};
    assert Nodes([p[0]]) == {p[0]};
  }

  /** insert = insert->next = left; left = left->next */
  method Take<T(0)>(insert: SList<T>, left: SList<T>, right: SList?<T>,
    ghost done: seq<SList<T>>, ghost p: seq<SList<T>>, ghost q: seq<SList<T>>)
    returns (rest: SList?<T>)
    requires Merging(done, insert, left, p, right, q)
    modifies insert`next
    ensures p != [] && Merging(done + [left], left, rest, p[1..], right, q)
  {
    hide Linked, Distinct;
    Link(insert, left, done, left, p, right, q);
    ListTail(left, p);
    rest := left.next;
    LinkedOne(left);
    LinkedAppend(done, [left], rest);
    DistinctAppend(done, [left]);
    ghost var more := done + [left];
    assert more[|more| - 1] == left;
    MoveNode(done, p, q);
  }

  lemma MergingSwap<T(0)>(done: seq<SList<T>>, insert: SList<T>, left: SList?<T>, p: seq<SList<T>>, right: SList?<T>, q: seq<SList<T>>)
    requires Merging(done, insert, left, p, right, q)
    ensures Merging(done, insert, right, q, left, p)
  {
  }

  lemma LinkedOne<T(0)>(n: SList<T>)
    ensures Linked([n], n.next) && Distinct([n])
  {
  }

  /** insert->next = left ? left : right, with one of the two at its end */
  method LinkRest<T(0)>(insert: SList<T>, left: SList?<T>, right: SList?<T>,
    ghost done: seq<SList<T>>, ghost p: seq<SList<T>>, ghost q: seq<SList<T>>)
    requires Merging(done, insert, left, p, right, q) && (p == [] || q == [])
    modifies insert`next
    ensures IsList(done[0], done + p + q)
  {
    hide Linked, Distinct;
    Link(insert, if left != null then left else right, done, left, p, right, q);
    if p != [] {
      LinkedAppend(done, p, null);
      DistinctAppend(done, p);
    } else if q != [] {
      LinkedAppend(done, q, null);
      DistinctAppend(done, q);
    }
    assert done + p + q == if p != [] then done + p else if q != [] then done + q else done;
  }

  /** So far done holds the first nodes of the merge, and merging what is left gives the other ones. */
  ghost predicate PartlyMerged<T(0)>(done: seq<SList<T>>, a: seq<SList<T>>, b: seq<SList<T>>, p: seq<SList<T>>, q: seq<SList<T>>,
    cmp: (T, T) -> int)
  {
    done != [] && done[1..] + Merge(a, b, Data, cmp) == Merge(p, q, Data, cmp)
  }

  /** done is the dummy node followed by nodes of the two lists. */
  ghost predicate From<T(0)>(merged: SList<T>, done: seq<SList<T>>, a: seq<SList<T>>, b: seq<SList<T>>, p: seq<SList<T>>, q: seq<SList<T>>) {
    done != [] && done[0] == merged &&
    (forall x :: x in done ==> x == merged || x in p || x in q) &&
    (forall x :: x in a ==> x in p) && (forall x :: x in b ==> x in q)
  }

  lemma MovedOne<T(0)>(done: seq<SList<T>>, a: seq<SList<T>>, b: seq<SList<T>>, p: seq<SList<T>>, q: seq<SList<T>>, cmp: (T, T) -> int)
    requires PartlyMerged(done, a, b, p, q, cmp) && a != [] && b != []
    ensures cmp(Data(a[0]), Data(b[0])) <= 0 ==> PartlyMerged(done + [a[0]], a[1..], b, p, q, cmp)
    ensures cmp(Data(a[0]), Data(b[0])) > 0 ==> PartlyMerged(done + [b[0]], a, b[1..], p, q, cmp)
  {
    hide Merge;
    if cmp(Data(a[0]), Data(b[0])) <= 0 {
      TakeLeft(a, b, Data, cmp);
      assert (done + [a[0]])[1..] == done[1..] + [a[0]];
    } else {
      TakeRight(a, b, Data, cmp);
      assert (done + [b[0]])[1..] == done[1..] + [b[0]];
    }
  }

  lemma Heads<T(0)>(done: seq<SList<T>>, insert: SList<T>, left: SList?<T>, a: seq<SList<T>>, right: SList?<T>, b: seq<SList<T>>)
    requires Merging(done, insert, left, a, right, b)
    ensures insert in done && left == Head(a) && right == Head(b)
  {
  }

  lemma Start<T(0)>(merged: SList<T>, left: SList?<T>, right: SList?<T>, p: seq<SList<T>>, q: seq<SList<T>>, cmp: (T, T) -> int)
    requires IsList(left, p) && IsList(right, q) && Apart(p, q) && merged !in p && merged !in q
    ensures Merging([merged], merged, left, p, right, q)
    ensures From(merged, [merged], p, q, p, q) && PartlyMerged([merged], p, q, p, q, cmp)
  {
    hide Merge;
    assert [merged][1..] + Merge(p, q, Data, cmp) == Merge(p, q, Data, cmp);
  }

  lemma {:induction false} MergeEnds<T(0)>(merged: SList<T>, done: seq<SList<T>>, a: seq<SList<T>>, b: seq<SList<T>>, p: seq<SList<T>>, q: seq<SList<T>>,
    cmp: (T, T) -> int)
    requires From(merged, done, a, b, p, q) && PartlyMerged(done, a, b, p, q, cmp) && (a == [] || b == [])
    ensures done[0] == merged && (done + a + b)[0] == merged && (done + a + b)[1..] == Merge(p, q, Data, cmp)
  {
    hide Merge;
    MergeEnd(a, b, Data, cmp);
    assert (done + a + b)[1..] == done[1..] + Merge(a, b, Data, cmp);
  }

  lemma FromStep<T(0)>(merged: SList<T>, done: seq<SList<T>>, a: seq<SList<T>>, b: seq<SList<T>>, p: seq<SList<T>>, q: seq<SList<T>>)
    requires From(merged, done, a, b, p, q)
    ensures a != [] ==> From(merged, done + [a[0]], a[1..], b, p, q)
    ensures b != [] ==> From(merged, done + [b[0]], a, b[1..], p, q)
    ensures forall x :: x in done ==> x == merged || x in p || x in q
  {
  }

  /** One turn of the loop: the smaller head moves on, the left one when neither is smaller. */
  method MergeStep<T(0)>(insert0: SList<T>, left0: SList<T>, right0: SList<T>, cmp: (T, T) -> int,
    ghost done: seq<SList<T>>, ghost a: seq<SList<T>>, ghost b: seq<SList<T>>)
    returns (insert: SList<T>, left: SList?<T>, right: SList?<T>, ghost a': seq<SList<T>>, ghost b': seq<SList<T>>)
    requires Merging(done, insert0, left0, a, right0, b)
    modifies insert0`next
    ensures a != [] && b != [] && Merging(done + [insert], insert, left, a', right, b')
    ensures if cmp(Data(a[0]), Data(b[0])) <= 0 then insert == a[0] && a' == a[1..] && b' == b
            else insert == b[0] && a' == a && b' == b[1..]
  {
    hide Merging, IsList;
    Heads(done, insert0, left0, a, right0, b);
    left, right := left0, right0;
    if cmp(Data(left0), Data(right0)) <= 0 {
      left := Take(insert0, left0, right, done, a, b);
      insert, a', b' := left0, a[1..], b;
    } else {
      MergingSwap(done, insert0, left, a, right, b);
      right := Take(insert0, right0, left, done, b, a);
      MergingSwap(done + [right0], right0, right, b[1..], left, a);
      insert, a', b' := right0, a, b[1..];
    }
  }

  /** Links the two lists into one, in the order of Merge. */
  method SlistSortMerge<T(0)>(left0: SList?<T>, right0: SList?<T>, cmp: (T, T) -> int, ghost p: seq<SList<T>>, ghost q: seq<SList<T>>)
    returns (r: SList?<T>)
    requires IsList(left0, p) && IsList(right0, q) && Apart(p, q)
    modifies Nodes(p)`next, Nodes(q)`next
    ensures IsList(r, Merge(p, q, Data, cmp))
  {
    hide Merging, Merge, PartlyMerged, From, IsList;
    var merged := new SList<T>();
    var insert: SList<T>, left, right := merged, left0, right0;
    ghost var done: seq<SList<T>>, a, b := [merged], p, q;
    Start(merged, left, right, p, q, cmp);
    while left != null && right != null
      invariant Merging(done, insert, left, a, right, b)
      invariant From(merged, done, a, b, p, q) && PartlyMerged(done, a, b, p, q, cmp)
      decreases |a| + |b|
    {
      Heads(done, insert, left, a, right, b);
      MovedOne(done, a, b, p, q, cmp);
      FromStep(merged, done, a, b, p, q);
      insert, left, right, a, b := MergeStep(insert, left, right, cmp, done, a, b);
      done := done + [insert];
    }
    Heads(done, insert, left, a, right, b);
    FromStep(merged, done, a, b, p, q);
    LinkRest(insert, left, right, done, a, b);
    MergeEnds(merged, done, a, b, p, q, cmp);
    ListTail(merged, done + a + b);
    r := merged.next;
  }

  // ---- halving ----

  /** One pointer walks two nodes for each one of the other, which stops at the last node of the first half. */
  method Middle<T(0)>(slist0: SList<T>, right0: SList<T>, ghost xs: seq<SList<T>>)
    returns (slist: SList<T>)
    requires |xs| >= 2 && IsList(slist0, xs) && right0 == xs[1]
    ensures 1 <= |xs| / 2 < |xs| && slist == xs[|xs| / 2 - 1]
  {
    hide Linked, Distinct;
    slist := slist0;
    var right: SList?<T> := right0;
    ghost var k := 0;
    while right != null
      invariant Linked(xs, null)
      invariant 2 * k + 1 < |xs| && slist == xs[k] && right == xs[2 * k + 1]
      decreases |xs| - k
    {
      NextOf(xs, 2 * k + 1);
      right := right.next;
      if right == null {
        break;
      }
      NextOf(xs, 2 * k + 2);
      right := right.next;
      if right == null {
        break;
      }
      NextOf(xs, k);
      slist := slist.next;
      k := k + 1;
    }
  }

  lemma NextOf<T(0)>(xs: seq<SList<T>>, k: nat)
    requires Linked(xs, null) && k < |xs|
    ensures xs[k].next == if k + 1 < |xs| then xs[k + 1] else null
  {
  }

  /** right = slist->next; slist->next = 0 */
  method Cut<T(0)>(slist: SList<T>, ghost k: nat, ghost xs: seq<SList<T>>) returns (right: SList<T>)
    requires k + 1 < |xs| && Linked(xs, null) && Distinct(xs) && slist == xs[k]
    modifies slist`next
    ensures IsList(xs[0], xs[..k + 1]) && IsList(right, xs[k + 1..]) && Apart(xs[..k + 1], xs[k + 1..])
  {
    NextOf(xs, k);
    right := slist.next;
    CutApart(xs, k + 1);
    LinkedSuffix(xs, k + 1);
    assert slist in xs[..k + 1];
    slist.next := null;
  }

  lemma CutApart<T(0)>(xs: seq<SList<T>>, k: nat)
    requires k <= |xs| && Distinct(xs)
    ensures Apart(xs[..k], xs[k..]) && Distinct(xs[..k]) && Distinct(xs[k..])
  {
    forall x | x in xs[..k] ensures x !in xs[k..] {
    }
  }

  lemma LinkedSuffix<T(0)>(xs: seq<SList<T>>, k: nat)
    requires k <= |xs| && Linked(xs, null)
    ensures Linked(xs[k..], null)
  {
  }

  // ---- sorting ----

  ghost predicate SameMembers<T(0)>(s: seq<SList<T>>, t: seq<SList<T>>) {
    Nodes(s) == Nodes(t)
  }

  /** Sorting neither adds nor loses a node. */
  lemma {:induction false} SameNodes<T(0)>(s: seq<SList<T>>, cmp: (T, T) -> int)
    ensures SameMembers(s, Sort(s, Data, cmp))
  {
    hide Sort;
    SortItems(s, Data, cmp);
    SameItems(s, Sort(s, Data, cmp));
  }

  lemma SameItems<T(0)>(s: seq<SList<T>>, t: seq<SList<T>>)
    requires multiset(s) == multiset(t)
    ensures SameMembers(s, t)
  {
    assert forall x :: x in s <==> x in multiset(s);
    assert forall x :: x in t <==> x in multiset(t);
  }

  lemma Parts<T(0)>(xs: seq<SList<T>>, k: nat)
    requires k <= |xs|
    ensures forall x :: x in xs <==> x in xs[..k] || x in xs[k..]
  {
    assert xs == xs[..k] + xs[k..];
  }

  lemma {:induction false} SortedApart<T(0)>(a: seq<SList<T>>, b: seq<SList<T>>, cmp: (T, T) -> int)
    requires Apart(a, b)
    ensures Apart(Sort(a, Data, cmp), Sort(b, Data, cmp)) && Apart(b, Sort(a, Data, cmp))
  {
    hide Sort;
    SameNodes(a, cmp);
    SameNodes(b, cmp);
  }

  /** Sorting one list leaves another one as it is when they share no node. */
  method SortBeside<T(0)>(slist: SList?<T>, cmp: (T, T) -> int, ghost xs: seq<SList<T>>, ghost other: SList?<T>, ghost ys: seq<SList<T>>)
    returns (r: SList?<T>)
    requires IsList(slist, xs) && IsList(other, ys) && Apart(xs, ys)
    modifies Nodes(xs)`next
    ensures IsList(r, Sort(xs, Data, cmp)) && IsList(other, ys)
    decreases |xs|, 2
  {
    hide Sort, Distinct;
    r := SlistSort(slist, cmp, xs);
  }

  /** Merging two lists of the nodes of a and of b changes no other node. */
  method MergeSorted<T(0)>(left: SList?<T>, right: SList?<T>, cmp: (T, T) -> int, ghost p: seq<SList<T>>, ghost q: seq<SList<T>>,
    ghost a: seq<SList<T>>, ghost b: seq<SList<T>>)
    returns (r: SList?<T>)
    requires IsList(left, p) && IsList(right, q) && Apart(p, q) && SameMembers(a, p) && SameMembers(b, q)
    modifies Nodes(a)`next, Nodes(b)`next
    ensures IsList(r, Merge(p, q, Data, cmp))
  {
    hide IsList, Apart, Merge;
    r := SlistSortMerge(left, right, cmp, p, q);
  }

  /** Sorts the two halves, which share no node, and then merges them. */
  method SortHalves<T(0)>(left: SList?<T>, right: SList?<T>, cmp: (T, T) -> int, ghost a: seq<SList<T>>, ghost b: seq<SList<T>>)
    returns (r: SList?<T>)
    requires IsList(left, a) && IsList(right, b) && Apart(a, b) && a != [] && b != []
    modifies Nodes(a)`next, Nodes(b)`next
    ensures IsList(r, Merge(Sort(a, Data, cmp), Sort(b, Data, cmp), Data, cmp))
    decreases |a| + |b|, 0
  {
    hide IsList, Sort, Merge, Apart;
    SameNodes(a, cmp);
    SameNodes(b, cmp);
    SortedApart(a, b, cmp);
    var p := SortBeside(left, cmp, a, right, b);
    var q := SortBeside(right, cmp, b, p, Sort(a, Data, cmp));
    r := MergeSorted(p, q, cmp, Sort(a, Data, cmp), Sort(b, Data, cmp), a, b);
  }

  /** The list of the same nodes in the order of Sort. */
  method SlistSort<T(0)>(slist: SList?<T>, cmp: (T, T) -> int, ghost xs: seq<SList<T>>) returns (r: SList?<T>)
    requires IsList(slist, xs)
    modifies Nodes(xs)`next
    ensures IsList(r, Sort(xs, Data, cmp))
    decreases |xs|, 1
  {
    hide Linked, Distinct, Merge;
    if slist == null {
      return slist;
    }
    NextOf(xs, 0);
    if slist.next == null {
      return slist;
    }
    var middle := Middle(slist, slist.next, xs);
    ghost var k := |xs| / 2;
    Parts(xs, k);
    var right := Cut(middle, k - 1, xs);
    r := SortHalves(slist, right, cmp, xs[..k], xs[k..]);
  }
}
