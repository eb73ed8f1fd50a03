module TreeMetric {
  // Weighted trees and their distances, for acm/lanqiao/t32.cpp. A tree is built from one vertex by attaching
  // further vertices, one after the other, to vertices that are there.

  /** A vertex, the earlier vertex it is attached to, and the length of the road between them. */
  datatype Leaf = Leaf(vertex: nat, parent: nat, weight: nat)

  /** The vertices after attaching the leaves to first. */
  function Vertices(first: nat, ls: seq<Leaf>): set<nat> {
    if ls == [] then {first} else Vertices(first, ls[..|ls| - 1]) + {ls[|ls| - 1].vertex}
  }

  /** Every leaf is new and is attached to an earlier vertex. */
  predicate IsTree(first: nat, ls: seq<Leaf>) {
    ls == [] ||
    (IsTree(first, ls[..|ls| - 1]) &&
     ls[|ls| - 1].vertex !in Vertices(first, ls[..|ls| - 1]) && ls[|ls| - 1].parent in Vertices(first, ls[..|ls| - 1]))
  }

  /** The distance of two vertices. */
  function Dist(first: nat, ls: seq<Leaf>, u: nat, v: nat): nat
    decreases |ls|
  {
    if ls == [] || u == v then 0
    else
      var l, before := ls[|ls| - 1], ls[..|ls| - 1];
      if u == l.vertex then Dist(first, before, l.parent, v) + l.weight
      else if v == l.vertex then Dist(first, before, u, l.parent) + l.weight
      else Dist(first, before, u, v)
  }

  lemma {:induction false} DistSymmetric(first: nat, ls: seq<Leaf>, u: nat, v: nat)
    ensures Dist(first, ls, u, v) == Dist(first, ls, v, u)
    decreases |ls|
  {
    if ls != [] && u != v {
      var l, before := ls[|ls| - 1], ls[..|ls| - 1];
      DistSymmetric(first, before, l.parent, v);
      DistSymmetric(first, before, u, l.parent);
      DistSymmetric(first, before, u, v);
    }
  }

  /** No way round over a third vertex is shorter. */
  lemma {:induction false} Triangle(first: nat, ls: seq<Leaf>, u: nat, v: nat, x: nat)
    requires IsTree(first, ls) && {u, v, x} <= Vertices(first, ls)
    ensures Dist(first, ls, u, v) <= Dist(first, ls, u, x) + Dist(first, ls, x, v)
    decreases |ls|
  {
    if ls != [] {
      var l, before := ls[|ls| - 1], ls[..|ls| - 1];
      var (u1, v1, x1) := (Above(l, u), Above(l, v), Above(l, x));
      Triangle(first, before, u1, v1, x1);
      Attached(first, ls, u, v);
      Attached(first, ls, u, x);
      Attached(first, ls, x, v);
    }
  }

  /** The vertex itself, or what it is attached to if it is the last leaf. */
  function Above(l: Leaf, u: nat): nat {
    if u == l.vertex then l.parent else u
  }

  function Extra(l: Leaf, u: nat): nat {
    if u == l.vertex then l.weight else 0
  }

  /** Distances of different vertices go through the parent of the last leaf. */
  lemma Attached(first: nat, ls: seq<Leaf>, u: nat, v: nat)
    requires ls != []
    ensures var l := ls[|ls| - 1];
      u != v ==> Dist(first, ls, u, v) == Dist(first, ls[..|ls| - 1], Above(l, u), Above(l, v)) + Extra(l, u) + Extra(l, v)
    ensures u == v ==> Dist(first, ls, u, v) == 0
  {
  }

  lemma {:induction false} SelfDist(first: nat, ls: seq<Leaf>, u: nat)
    ensures Dist(first, ls, u, u) == 0
  {
  }

  lemma {:induction false} Below(first: nat, ls: seq<Leaf>, u: nat)
    requires IsTree(first, ls) && ls != [] && u in Vertices(first, ls)
    ensures Above(ls[|ls| - 1], u) in Vertices(first, ls[..|ls| - 1])
  {
  }

  function Max(a: int, b: int): int {
    if a < b then b else a
  }

  /** Among the three ways to pair four vertices, no pairing is longer than both others. */
  lemma {:induction false} FourPoints(first: nat, ls: seq<Leaf>, a: nat, b: nat, c: nat, e: nat)
    requires IsTree(first, ls) && {a, b, c, e} <= Vertices(first, ls)
    ensures Dist(first, ls, a, b) + Dist(first, ls, c, e) <=
      Max(Dist(first, ls, a, c) + Dist(first, ls, b, e), Dist(first, ls, a, e) + Dist(first, ls, b, c))
    decreases |ls|
  {
    hide Dist, IsTree, Vertices;
    SelfDist(first, ls, a);
    SelfDist(first, ls, b);
    SelfDist(first, ls, c);
    SelfDist(first, ls, e);
    if a == b {
      Triangle(first, ls, c, e, a);
      DistSymmetric(first, ls, c, a);
    } else if c == e {
      Triangle(first, ls, a, b, c);
      DistSymmetric(first, ls, b, c);
    } else if a == c || b == e || a == e || b == c {
      DistSymmetric(first, ls, a, b);
      DistSymmetric(first, ls, c, e);
    } else if ls != [] {
      FourDifferent(first, ls, a, b, c, e);
    } else {
      OneVertex(first, ls, a, b);
    }
  }

  lemma {:induction false} OneVertex(first: nat, ls: seq<Leaf>, a: nat, b: nat)
    requires ls == [] && {a, b} <= Vertices(first, ls)
    ensures a == b
  {
  }

  lemma {:induction false} FourDifferent(first: nat, ls: seq<Leaf>, a: nat, b: nat, c: nat, e: nat)
    requires IsTree(first, ls) && {a, b, c, e} <= Vertices(first, ls) && ls != []
    requires a != b && c != e && a != c && b != e && a != e && b != c
    ensures Dist(first, ls, a, b) + Dist(first, ls, c, e) <=
      Max(Dist(first, ls, a, c) + Dist(first, ls, b, e), Dist(first, ls, a, e) + Dist(first, ls, b, c))
    decreases |ls|, 0
  {
    hide Dist, Vertices;
    var l, before := ls[|ls| - 1], ls[..|ls| - 1];
    Below(first, ls, a);
    Below(first, ls, b);
    Below(first, ls, c);
    Below(first, ls, e);
    FourPoints(first, before, Above(l, a), Above(l, b), Above(l, c), Above(l, e));
    Attached(first, ls, a, b);
    Attached(first, ls, c, e);
    Attached(first, ls, a, c);
    Attached(first, ls, b, e);
    Attached(first, ls, a, e);
    Attached(first, ls, b, c);
  }

  // Two sweeps find the diameter: if no vertex is farther from a start r than a, then no two vertices are
  // farther apart than a is from one of them.
  lemma {:induction false} TwoSweeps(first: nat, ls: seq<Leaf>, r: nat, a: nat, u: nat, v: nat)
    requires IsTree(first, ls) && {r, a, u, v} <= Vertices(first, ls)
    requires Dist(first, ls, r, u) <= Dist(first, ls, r, a) && Dist(first, ls, r, v) <= Dist(first, ls, r, a)
    ensures Dist(first, ls, u, v) <= Max(Dist(first, ls, a, u), Dist(first, ls, a, v))
  {
    hide Dist, IsTree, Vertices;
    FourPoints(first, ls, u, v, r, a);
    DistSymmetric(first, ls, u, r);
    DistSymmetric(first, ls, v, r);
    DistSymmetric(first, ls, u, a);
    DistSymmetric(first, ls, v, a);
  }

  // ---- roads and walks ----

  /** There is a road of the length w between u and v. */
  predicate Road(ls: seq<Leaf>, u: nat, v: nat, w: nat) {
    exists i :: 0 <= i < |ls| && ls[i].weight == w &&
      ((ls[i].vertex == u && ls[i].parent == v) || (ls[i].vertex == v && ls[i].parent == u))
  }

  lemma RoadMore(before: seq<Leaf>, l: Leaf, u: nat, v: nat, w: nat)
    ensures Road(before + [l], u, v, w) <==>
      Road(before, u, v, w) || (l.weight == w && ((l.vertex == u && l.parent == v) || (l.vertex == v && l.parent == u)))
  {
    var ls := before + [l];
    assert ls[|before|] == l;
    if Road(before, u, v, w) {
      var i :| 0 <= i < |before| && before[i].weight == w &&
        ((before[i].vertex == u && before[i].parent == v) || (before[i].vertex == v && before[i].parent == u));
      assert ls[i] == before[i];
    }
  }

  /** The next vertex on the way from u to r. */
  function Toward(first: nat, ls: seq<Leaf>, r: nat, u: nat): nat
    decreases |ls|
  {
    if ls == [] then r
    else
      var l, before := ls[|ls| - 1], ls[..|ls| - 1];
      if u == l.vertex then l.parent
      else if r == l.vertex then if u == l.parent then r else Toward(first, before, l.parent, u)
      else Toward(first, before, r, u)
  }

  /** Every road leads to r in one of its two directions, and distances from r add up along it. */
  lemma {:induction false} RoadTowardRoot(first: nat, ls: seq<Leaf>, r: nat, u: nat, v: nat, w: nat)
    requires IsTree(first, ls) && r in Vertices(first, ls) && Road(ls, u, v, w)
    ensures {u, v} <= Vertices(first, ls) && u != v
    ensures (u != r && Toward(first, ls, r, u) == v && Dist(first, ls, r, u) == Dist(first, ls, r, v) + w) ||
      (v != r && Toward(first, ls, r, v) == u && Dist(first, ls, r, v) == Dist(first, ls, r, u) + w)
    decreases |ls|
  {
    var l, before := ls[|ls| - 1], ls[..|ls| - 1];
    assert ls == before + [l];
    RoadMore(before, l, u, v, w);
    Attached(first, ls, r, u);
    Attached(first, ls, r, v);
    SelfDist(first, before, l.parent);
    if Road(before, u, v, w) {
      RoadTowardRoot(first, before, Above(l, r), u, v, w);
    }
  }

  /** A set with one vertex and all neighbours of its members has all vertices. */
  lemma {:induction false} AllReached(first: nat, ls: seq<Leaf>, s: set<nat>, x: nat)
    requires IsTree(first, ls) && x in s && x in Vertices(first, ls)
    requires forall u, v, w :: u in s && Road(ls, u, v, w) ==> v in s
    ensures Vertices(first, ls) <= s
    decreases |ls|
  {
    if ls != [] {
      var l, before := ls[|ls| - 1], ls[..|ls| - 1];
      assert ls == before + [l];
      forall u, v, w | u in s && Road(before, u, v, w) ensures v in s {
        RoadMore(before, l, u, v, w);
      }
      RoadMore(before, l, l.vertex, l.parent, l.weight);
      RoadMore(before, l, l.parent, l.vertex, l.weight);
      assert x == l.vertex ==> l.parent in s;
      AllReached(first, before, s, Above(l, x));
    }
  }

  /** A walk along roads, as the vertices after the start with the lengths of the roads. */
  ghost predicate Walk(ls: seq<Leaf>, u: nat, steps: seq<(nat, nat)>, v: nat)
    decreases |steps|
  {
    if steps == [] then u == v
    else Road(ls, u, steps[0].0, steps[0].1) && Walk(ls, steps[0].0, steps[1..], v)
  }

  ghost function Length(steps: seq<(nat, nat)>): nat {
    if steps == [] then 0 else steps[0].1 + Length(steps[1..])
  }

  /** The distance is the length of the shortest walk: no walk is shorter. */
  lemma {:induction false} WalksAreLonger(first: nat, ls: seq<Leaf>, u: nat, steps: seq<(nat, nat)>, v: nat)
    requires IsTree(first, ls) && {u, v} <= Vertices(first, ls) && Walk(ls, u, steps, v)
    ensures Dist(first, ls, u, v) <= Length(steps)
    decreases |steps|
  {
    hide Dist, IsTree, Vertices;
    if steps == [] {
      SelfDist(first, ls, u);
    } else {
      RoadTowardRoot(first, ls, u, u, steps[0].0, steps[0].1);
      SelfDist(first, ls, u);
      WalksAreLonger(first, ls, steps[0].0, steps[1..], v);
      Triangle(first, ls, u, v, steps[0].0);
    }
  }

  /** And some walk has that length. */
  lemma {:induction false} SomeWalk(first: nat, ls: seq<Leaf>, u: nat, v: nat) returns (steps: seq<(nat, nat)>)
    requires IsTree(first, ls) && {u, v} <= Vertices(first, ls)
    ensures Walk(ls, u, steps, v) && Length(steps) == Dist(first, ls, u, v)
    decreases |ls|
  {
    hide Road;
    if u == v {
      steps := [];
    } else {
      var l, before := ls[|ls| - 1], ls[..|ls| - 1];
      assert ls == before + [l];
      var middle := SomeWalk(first, before, Above(l, u), Above(l, v));
      WalkMore(before, l, Above(l, u), middle, Above(l, v));
      steps := middle;
      if v == l.vertex {
        RoadMore(before, l, l.parent, l.vertex, l.weight);
        WalkAppend(ls, Above(l, u), steps, l.parent, l.vertex, l.weight);
        steps := steps + [(l.vertex, l.weight)];
      }
      if u == l.vertex {
        RoadMore(before, l, l.vertex, l.parent, l.weight);
        steps := [(l.parent, l.weight)] + steps;
        assert steps[1..] == middle;
      }
    }
  }

  lemma {:induction false} WalkMore(before: seq<Leaf>, l: Leaf, u: nat, steps: seq<(nat, nat)>, v: nat)
    requires Walk(before, u, steps, v)
    ensures Walk(before + [l], u, steps, v)
    decreases |steps|
  {
    hide Road;
    if steps != [] {
      RoadMore(before, l, u, steps[0].0, steps[0].1);
      WalkMore(before, l, steps[0].0, steps[1..], v);
    }
  }

  lemma {:induction false} WalkAppend(ls: seq<Leaf>, u: nat, steps: seq<(nat, nat)>, v: nat, x: nat, w: nat)
    requires Walk(ls, u, steps, v) && Road(ls, v, x, w)
    ensures Walk(ls, u, steps + [(x, w)], x) && Length(steps + [(x, w)]) == Length(steps) + w
    decreases |steps|
  {
    hide Road;
    if steps == [] {
      assert [(x, w)][1..] == [];
    } else {
      WalkAppend(ls, steps[0].0, steps[1..], v, x, w);
      assert (steps + [(x, w)])[1..] == steps[1..] + [(x, w)];
    }
  }
}
