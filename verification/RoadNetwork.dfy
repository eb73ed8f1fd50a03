module RoadNetwork {
  // The input of acm/lanqiao/t32.cpp: cities 1 to n with n - 1 roads that connect them all. Such a network is a
  // tree, which is grown here from the first city, road by road.

  import opened TreeMetric

  /** A road of the input. */
  datatype Edge = Edge(p: nat, q: nat, length: nat)

  predicate EdgeBetween(edges: seq<Edge>, u: nat, v: nat, w: nat) {
    Edge(u, v, w) in edges || Edge(v, u, w) in edges
  }

  /** A way along the roads of the input, as the cities after the start with the lengths of the roads. */
  ghost predicate Way(edges: seq<Edge>, u: nat, steps: seq<(nat, nat)>, v: nat)
    decreases |steps|
  {
    if steps == [] then u == v
    else EdgeBetween(edges, u, steps[0].0, steps[0].1) && Way(edges, steps[0].0, steps[1..], v)
  }

  ghost predicate Reachable(edges: seq<Edge>, x: nat) {
    exists steps :: Way(edges, 1, steps, x)
  }

  /** Every city can be reached from the first. */
  ghost predicate Connected(edges: seq<Edge>, n: nat) {
    forall x :: 1 <= x <= n ==> Reachable(edges, x)
  }

  predicate ValidRoads(edges: seq<Edge>, n: nat) {
    n >= 1 && |edges| == n - 1 && forall e :: e in edges ==> 1 <= e.p <= n && 1 <= e.q <= n
  }

  /** The length of the shortest way. */
  ghost predicate Shortest(edges: seq<Edge>, u: nat, v: nat, d: nat) {
    (exists steps :: Way(edges, u, steps, v) && Length(steps) == d) &&
    forall steps :: Way(edges, u, steps, v) ==> d <= Length(steps)
  }

  /** s is the distance of two cities, and no two are farther apart. */
  ghost predicate Diameter(edges: seq<Edge>, n: nat, s: nat) {
    (exists u, v :: 1 <= u <= n && 1 <= v <= n && Shortest(edges, u, v, s)) &&
    forall u: nat, v: nat, d: nat :: 1 <= u <= n && 1 <= v <= n && Shortest(edges, u, v, d) ==> d <= s
  }

  /** The roads of the input are those of the tree, and its vertices are 1 to n. */
  ghost predicate Describes(first: nat, ls: seq<Leaf>, edges: seq<Edge>, n: nat) {
    IsTree(first, ls) && (forall x :: x in Vertices(first, ls) <==> 1 <= x <= n) &&
    forall u, v, w :: Road(ls, u, v, w) <==> EdgeBetween(edges, u, v, w)
  }

  // ---- growing the tree ----

  predicate Joins(e: Edge, u: nat, v: nat, w: nat) {
    e == Edge(u, v, w) || e == Edge(v, u, w)
  }

  predicate InRange(edges: seq<Edge>, used: set<nat>) {
    forall i :: i in used ==> i < |edges|
  }

  ghost predicate UsedRoad(edges: seq<Edge>, used: set<nat>, u: nat, v: nat, w: nat)
    requires InRange(edges, used)
  {
    exists i :: i in used && Joins(edges[i], u, v, w)
  }

  ghost predicate SameRoads(edges: seq<Edge>, ls: seq<Leaf>, used: set<nat>)
    requires InRange(edges, used)
  {
    forall u, v, w :: Road(ls, u, v, w) <==> UsedRoad(edges, used, u, v, w)
  }

  /** The roads of the tree are those of the input with the numbers in used. */
  ghost predicate Grown(edges: seq<Edge>, n: nat, ls: seq<Leaf>, used: set<nat>) {
    IsTree(1, ls) && |used| == |ls| && (forall x :: x in Vertices(1, ls) ==> 1 <= x <= n) &&
    InRange(edges, used) && SameRoads(edges, ls, used)
  }

  lemma {:induction false} TreeSize(first: nat, ls: seq<Leaf>)
    requires IsTree(first, ls)
    ensures |Vertices(first, ls)| == |ls| + 1
  {
    if ls != [] {
      TreeSize(first, ls[..|ls| - 1]);
    }
  }

  function UpTo(a: nat, b: nat): (r: set<nat>)
    ensures forall x :: x in r <==> a <= x < b
  {
    if b <= a then {} else UpTo(a, b - 1) + {b - 1}
  }

  lemma {:induction false} UpToSize(a: nat, b: nat)
    requires a <= b
    ensures |UpTo(a, b)| == b - a
  {
    if a < b {
      UpToSize(a, b - 1);
    }
  }

  lemma {:induction false} SameSet(s: set<nat>, t: set<nat>)
    requires s <= t && |s| >= |t|
    ensures s == t
    decreases |s|
  {
    if s == {} {
      assert |t| == 0;
    } else {
      var x :| x in s;
      SameSet(s - {x}, t - {x});
      assert s == (s - {x}) + {x} && t == (t - {x}) + {x};
    }
  }

  /** A way that leaves a set of cities does so along some road. */
  lemma {:induction false} Crossing(edges: seq<Edge>, s: set<nat>, u: nat, steps: seq<(nat, nat)>, v: nat)
    returns (i: nat, p: nat, q: nat)
    requires Way(edges, u, steps, v) && u in s && v !in s
    ensures i < |edges| && p in s && q !in s && Joins(edges[i], p, q, edges[i].length)
    decreases |steps|
  {
    if steps[0].0 in s {
      i, p, q := Crossing(edges, s, steps[0].0, steps[1..], v);
    } else {
      p, q := u, steps[0].0;
      var w := steps[0].1;
      i :| i < |edges| && (edges[i] == Edge(u, q, w) || edges[i] == Edge(q, u, w));
    }
  }

  lemma StartGrown(edges: seq<Edge>, n: nat)
    requires n >= 1
    ensures Grown(edges, n, [], {})
  {
  }

  lemma {:induction false} RoadEnds(first: nat, ls: seq<Leaf>, u: nat, v: nat, w: nat)
    requires IsTree(first, ls) && Road(ls, u, v, w)
    ensures u in Vertices(first, ls) && v in Vertices(first, ls)
  {
    FirstIn(first, ls);
    RoadTowardRoot(first, ls, first, u, v, w);
  }

  lemma {:induction false} FirstIn(first: nat, ls: seq<Leaf>)
    ensures first in Vertices(first, ls)
  {
    if ls != [] {
      FirstIn(first, ls[..|ls| - 1]);
    }
  }

  lemma {:induction false} NotUsed(edges: seq<Edge>, n: nat, ls: seq<Leaf>, used: set<nat>, i: nat, p: nat, q: nat)
    requires Grown(edges, n, ls, used) && i < |edges| && q !in Vertices(1, ls) && Joins(edges[i], p, q, edges[i].length)
    ensures i !in used
  {
    hide Road, IsTree, Vertices, Joins;
    if i in used {
      assert UsedRoad(edges, used, p, q, edges[i].length);
      RoadEnds(1, ls, p, q, edges[i].length);
    }
  }

  lemma UsedOneMore(edges: seq<Edge>, used: set<nat>, i: nat, u: nat, v: nat, w: nat)
    requires InRange(edges, used) && i < |edges|
    ensures InRange(edges, used + {i})
    ensures UsedRoad(edges, used + {i}, u, v, w) <==> UsedRoad(edges, used, u, v, w) || Joins(edges[i], u, v, w)
  {
    hide Joins;
    if Joins(edges[i], u, v, w) {
      assert i in used + {i};
    }
    if UsedRoad(edges, used, u, v, w) {
      var k :| k in used && Joins(edges[k], u, v, w);
      assert k in used + {i};
    }
  }

  lemma RoadsGrow(edges: seq<Edge>, ls: seq<Leaf>, used: set<nat>, i: nat, p: nat, q: nat)
    requires InRange(edges, used) && i < |edges| && SameRoads(edges, ls, used) && Joins(edges[i], p, q, edges[i].length)
    ensures InRange(edges, used + {i}) && SameRoads(edges, ls + [Leaf(q, p, edges[i].length)], used + {i})
  {
    hide Road, UsedRoad;
    var l := Leaf(q, p, edges[i].length);
    forall u, v, t ensures Road(ls + [l], u, v, t) <==> UsedRoad(edges, used + {i}, u, v, t) {
      RoadMore(ls, l, u, v, t);
      UsedOneMore(edges, used, i, u, v, t);
    }
  }

  lemma {:induction false} TreeGrows(ls: seq<Leaf>, l: Leaf)
    requires IsTree(1, ls) && l.parent in Vertices(1, ls) && l.vertex !in Vertices(1, ls)
    ensures IsTree(1, ls + [l]) && Vertices(1, ls + [l]) == Vertices(1, ls) + {l.vertex}
  {
    assert (ls + [l])[..|ls|] == ls;
  }

  /** One more road, to a city that has not been reached yet. */
  lemma {:induction false} GrowOne(edges: seq<Edge>, n: nat, ls: seq<Leaf>, used: set<nat>, i: nat, p: nat, q: nat)
    requires Grown(edges, n, ls, used) && ValidRoads(edges, n) && i < |edges|
    requires p in Vertices(1, ls) && q !in Vertices(1, ls) && Joins(edges[i], p, q, edges[i].length)
    ensures Grown(edges, n, ls + [Leaf(q, p, edges[i].length)], used + {i})
  {
    hide SameRoads, IsTree, Vertices, InRange;
    NotUsed(edges, n, ls, used, i, p, q);
    RoadsGrow(edges, ls, used, i, p, q);
    TreeGrows(ls, Leaf(q, p, edges[i].length));
    assert edges[i] in edges;
  }

  lemma AllUsed(edges: seq<Edge>, ls: seq<Leaf>, used: set<nat>, u: nat, v: nat, w: nat)
    requires InRange(edges, used) && (forall k :: 0 <= k < |edges| ==> k in used)
    ensures UsedRoad(edges, used, u, v, w) <==> EdgeBetween(edges, u, v, w)
  {
    if EdgeBetween(edges, u, v, w) {
      var k :| 0 <= k < |edges| && (edges[k] == Edge(u, v, w) || edges[k] == Edge(v, u, w));
      assert k in used && Joins(edges[k], u, v, w);
    }
  }

  lemma GrownUp(edges: seq<Edge>, n: nat, ls: seq<Leaf>, used: set<nat>)
    requires Grown(edges, n, ls, used) && ValidRoads(edges, n) && |ls| == n - 1
    ensures Describes(1, ls, edges, n)
  {
    hide Road, IsTree, Vertices, EdgeBetween, UsedRoad, UpTo;
    TreeSize(1, ls);
    UpToSize(1, n + 1);
    SameSet(Vertices(1, ls), UpTo(1, n + 1));
    UpToSize(0, |edges|);
    SameSet(used, UpTo(0, |edges|));
    forall u, v, w ensures Road(ls, u, v, w) <==> EdgeBetween(edges, u, v, w) {
      AllUsed(edges, ls, used, u, v, w);
    }
  }

  /** A road to a city that has not been reached yet, as long as there is one. */
  lemma NextRoad(edges: seq<Edge>, n: nat, ls: seq<Leaf>, used: set<nat>) returns (i: nat, p: nat, q: nat)
    requires Grown(edges, n, ls, used) && ValidRoads(edges, n) && Connected(edges, n) && |ls| < n - 1
    ensures i < |edges| && p in Vertices(1, ls) && q !in Vertices(1, ls) && Joins(edges[i], p, q, edges[i].length)
  {
    hide Road, IsTree, Dist, Vertices;
    TreeSize(1, ls);
    UpToSize(1, n + 1);
    if UpTo(1, n + 1) <= Vertices(1, ls) {
      SameSet(UpTo(1, n + 1), Vertices(1, ls));
    }
    var x :| x in UpTo(1, n + 1) && x !in Vertices(1, ls);
    assert Reachable(edges, x);
    var steps :| Way(edges, 1, steps, x);
    FirstIn(1, ls);
    i, p, q := Crossing(edges, Vertices(1, ls), 1, steps, x);
  }

  /** n - 1 roads that connect n cities form a tree. */
  lemma {:induction false} IsATree(edges: seq<Edge>, n: nat, ls: seq<Leaf>, used: set<nat>) returns (r: seq<Leaf>)
    requires Grown(edges, n, ls, used) && ValidRoads(edges, n) && Connected(edges, n) && |ls| <= n - 1
    ensures Describes(1, r, edges, n)
    decreases n - |ls|
  {
    hide Grown, Describes, Connected;
    if |ls| == n - 1 {
      GrownUp(edges, n, ls, used);
      r := ls;
    } else {
      var i, p, q := NextRoad(edges, n, ls, used);
      GrowOne(edges, n, ls, used, i, p, q);
      r := IsATree(edges, n, ls + [Leaf(q, p, edges[i].length)], used + {i});
    }
  }

  lemma FindTree(edges: seq<Edge>, n: nat) returns (ls: seq<Leaf>)
    requires ValidRoads(edges, n) && Connected(edges, n)
    ensures Describes(1, ls, edges, n)
  {
    StartGrown(edges, n);
    ls := IsATree(edges, n, [], {});
  }

  // ---- distances ----

  lemma {:induction false} WayIsWalk(first: nat, ls: seq<Leaf>, edges: seq<Edge>, n: nat, u: nat, steps: seq<(nat, nat)>, v: nat)
    requires Describes(first, ls, edges, n)
    ensures Way(edges, u, steps, v) <==> Walk(ls, u, steps, v)
    decreases |steps|
  {
    hide Road, EdgeBetween, IsTree, Vertices;
    if steps != [] {
      assert Road(ls, u, steps[0].0, steps[0].1) <==> EdgeBetween(edges, u, steps[0].0, steps[0].1);
      WayIsWalk(first, ls, edges, n, steps[0].0, steps[1..], v);
    }
  }

  /** The distance in the tree is the length of the shortest way. */
  lemma {:induction false} DistIsShortest(first: nat, ls: seq<Leaf>, edges: seq<Edge>, n: nat, u: nat, v: nat)
    requires Describes(first, ls, edges, n) && 1 <= u <= n && 1 <= v <= n
    ensures Shortest(edges, u, v, Dist(first, ls, u, v))
  {
    hide Road, Dist, IsTree, Vertices, Way, Walk;
    var steps := SomeWalk(first, ls, u, v);
    WayIsWalk(first, ls, edges, n, u, steps, v);
    forall steps | Way(edges, u, steps, v) ensures Dist(first, ls, u, v) <= Length(steps) {
      WayIsWalk(first, ls, edges, n, u, steps, v);
      WalksAreLonger(first, ls, u, steps, v);
    }
  }

  lemma OneShortest(edges: seq<Edge>, u: nat, v: nat, d: nat, e: nat)
    requires Shortest(edges, u, v, d) && Shortest(edges, u, v, e)
    ensures d == e
  {
  }
}
