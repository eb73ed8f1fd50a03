// The longest way in a road network that is a tree: acm/lanqiao/t32.cpp.
module TreeSweep {
  import opened TreeMetric
  import opened RoadNetwork

  /** The sum of 10 + k for k up to s. */
  function Costs(s: nat): nat {
    if s == 0 then 0 else Costs(s - 1) + 10 + s
  }

  /** calc */
  function Calc(n: nat): nat {
    10 * n + n * (n + 1) / 2
  }

  lemma {:induction false} CalcIsSum(s: nat)
    ensures Calc(s) == Costs(s)
  {
    if s > 0 {
      CalcIsSum(s - 1);
      assert s * (s + 1) == (s - 1) * s + 2 * s;
    }
  }

  /** All neighbours of x are in s. */
  ghost predicate Explored(ls: seq<Leaf>, x: nat, s: set<nat>) {
    forall y: nat, t: nat :: Road(ls, x, y, t) ==> y in s
  }

  /** From was to now nothing is lost, and all that came new, but for some, is explored. */
  ghost predicate Progress(was: set<nat>, now: set<nat>, ls: seq<Leaf>, except: set<nat>) {
    was <= now && forall x: nat :: x in now - was - except ==> Explored(ls, x, now)
  }

  lemma ProgressMore(was: set<nat>, mid: set<nat>, now: set<nat>, ls: seq<Leaf>, except: set<nat>)
    requires Progress(was, mid, ls, except) && Progress(mid, now, ls, {})
    ensures Progress(was, now, ls, except)
  {
    hide Road;
    forall x | x in now - was - except ensures Explored(ls, x, now) {
      if x in mid {
        assert Explored(ls, x, mid);
      }
    }
  }

  lemma LastExplored(was: set<nat>, now: set<nat>, ls: seq<Leaf>, u: nat)
    requires Progress(was, now, ls, {u}) && Explored(ls, u, now)
    ensures Progress(was, now, ls, {})
  {
    hide Explored;
  }

  class Network {
    const n: nat
    const v: array<seq<nat>>
    const w: array<seq<nat>>
    const d: array<nat>
    const visited: array<bool>

    ghost predicate Valid()
      reads v, w
    {
      v.Length == w.Length == d.Length == visited.Length == n + 1 && v != w &&
      forall u :: 0 <= u <= n ==> |v[u]| == |w[u]|
    }

    /** The lists of neighbours hold exactly the edges. */
    ghost predicate Lists(edges: seq<Edge>)
      reads v, w
    {
      Valid() &&
      (forall u, i :: 0 <= u <= n && 0 <= i < |v[u]| ==> v[u][i] <= n && EdgeBetween(edges, u, v[u][i], w[u][i])) &&
      forall u, x, t :: 0 <= u <= n && EdgeBetween(edges, u, x, t) ==> exists i :: 0 <= i < |v[u]| && v[u][i] == x && w[u][i] == t
    }

    constructor (n: nat)
      ensures this.n == n && Lists([]) && fresh(v) && fresh(w) && fresh(d) && fresh(visited)
      ensures forall u :: 0 <= u <= n ==> v[u] == [] && w[u] == []
    {
      this.n := n;
      v := new seq<nat>[n + 1](_ => []);
      w := new seq<nat>[n + 1](_ => []);
      d := new nat[n + 1](_ => 0);
      visited := new bool[n + 1](_ => false);
    }

    /** Reads one road into the lists of both of its ends. */
    method AddRoad(e: Edge, ghost edges: seq<Edge>)
      requires Lists(edges) && 1 <= e.p <= n && 1 <= e.q <= n && e.p != e.q
      modifies v, w
      ensures Lists(edges + [e])
    {
      v[e.p] := v[e.p] + [e.q];
      w[e.p] := w[e.p] + [e.length];
      v[e.q] := v[e.q] + [e.p];
      w[e.q] := w[e.q] + [e.length];
      forall u, x, t | 0 <= u <= n && EdgeBetween(edges + [e], u, x, t)
        ensures exists i :: 0 <= i < |v[u]| && v[u][i] == x && w[u][i] == t
      {
        if EdgeBetween(edges, u, x, t) {
          var i :| 0 <= i < |old(v[u])| && old(v[u])[i] == x && old(w[u])[i] == t;
          assert v[u][i] == x;
        } else {
          assert v[u][|old(v[u])|] == x;
        }
      }
    }

    // ---- the sweep ----

    /** The vertices that have not been visited. */
    ghost function Unvisited(): (r: set<nat>)
      reads visited
    {
      set x | 0 <= x < visited.Length && !visited[x]
    }

    /** With every visited vertex the next one toward the root is visited, and its distance is known. */
    ghost predicate Sweeping(first: nat, ls: seq<Leaf>, root: nat)
      reads d, visited
    {
      forall x :: 0 <= x < visited.Length && x < d.Length && visited[x] ==>
        x in Vertices(first, ls) && d[x] == Dist(first, ls, root, x) &&
        (x != root ==> Toward(first, ls, root, x) < visited.Length && visited[Toward(first, ls, root, x)])
    }

    /** A road from a visited vertex to one that is not leads away from the root. */
    lemma {:induction false} Onward(first: nat, ls: seq<Leaf>, root: nat, u: nat, x: nat, t: nat)
      requires IsTree(first, ls) && root in Vertices(first, ls) && Sweeping(first, ls, root)
      requires visited.Length <= d.Length && u < visited.Length && visited[u] && x < visited.Length && !visited[x]
      requires Road(ls, u, x, t)
      ensures x in Vertices(first, ls) && Toward(first, ls, root, x) == u
      ensures Dist(first, ls, root, x) == Dist(first, ls, root, u) + t
    {
      RoadTowardRoot(first, ls, root, u, x, t);
    }

    ghost function Visited(): (r: set<nat>)
      reads visited
    {
      set x | 0 <= x < visited.Length && visited[x]
    }

    /** The parts of the graph and of the sweep that stay valid throughout. */
    ghost predicate Ready(edges: seq<Edge>, first: nat, ls: seq<Leaf>, root: nat)
      reads v, w, d, visited
    {
      Lists(edges) && Describes(first, ls, edges, n) && root in Vertices(first, ls) && Sweeping(first, ls, root)
    }

    /** u can be visited next: its distance is known, and it hangs on a visited vertex. */
    ghost predicate Reached(u: nat, first: nat, ls: seq<Leaf>, root: nat)
      reads d, visited
    {
      u < visited.Length && u < d.Length && !visited[u] && u in Vertices(first, ls) && d[u] == Dist(first, ls, root, u) &&
      (u != root ==> Toward(first, ls, root, u) < visited.Length && visited[Toward(first, ls, root, u)])
    }

    /** dfs, in a tree that is only there for the proof. */
    method Dfs(u: nat, ghost edges: seq<Edge>, ghost first: nat, ghost ls: seq<Leaf>, ghost root: nat)
      requires Ready(edges, first, ls, root) && Reached(u, first, ls, root)
      modifies d, visited
      ensures Ready(edges, first, ls, root) && visited[u] && Progress(old(Visited()), Visited(), ls, {})
      decreases Unvisited(), 0
    {
      hide Describes, Explored, Dist, Toward, Vertices, Sweeping, Progress;
      ghost var was := Visited();
      MarkVisited(u, edges, first, ls, root);
      for i := 0 to |v[u]|
        invariant Ready(edges, first, ls, root) && visited[u] && Progress(was, Visited(), ls, {u})
        invariant forall j :: 0 <= j < i ==> v[u][j] <= n && v[u][j] in Visited()
        invariant Unvisited() < old(Unvisited())
      {
        ghost var now := Visited();
        VisitNeighbour(u, i, edges, first, ls, root, was);
        assert u in now && forall j :: 0 <= j < i ==> v[u][j] in now;
      }
      AllNeighbours(u, edges, first, ls);
      LastExplored(was, Visited(), ls, u);
    }

    method MarkVisited(u: nat, ghost edges: seq<Edge>, ghost first: nat, ghost ls: seq<Leaf>, ghost root: nat)
      requires Ready(edges, first, ls, root) && Reached(u, first, ls, root)
      modifies visited
      ensures Ready(edges, first, ls, root) && visited[u] && Progress(old(Visited()), Visited(), ls, {u})
      ensures Unvisited() < old(Unvisited())
    {
      hide Describes, Explored, Dist, Toward, Vertices;
      visited[u] := true;
      assert u in old(Unvisited()) && u !in Unvisited();
    }

    /** The body of the loop: a neighbour that has not been visited is. */
    method VisitNeighbour(u: nat, i: nat, ghost edges: seq<Edge>, ghost first: nat, ghost ls: seq<Leaf>, ghost root: nat,
                          ghost was: set<nat>)
      requires Ready(edges, first, ls, root) && u <= n && visited[u] && i < |v[u]| && Progress(was, Visited(), ls, {u})
      modifies d, visited
      ensures Ready(edges, first, ls, root) && v[u][i] <= n && v[u][i] in Visited() && Progress(was, Visited(), ls, {u})
      ensures old(Visited()) <= Visited() && Unvisited() <= old(Unvisited())
      decreases Unvisited(), 1
    {
      hide Describes, Explored, Dist, Toward, Vertices, Sweeping;
      var x := v[u][i];
      if !visited[x] {
        ghost var mid := Visited();
        SetDistance(u, x, w[u][i], edges, first, ls, root);
        assert Visited() == mid;
        Dfs(x, edges, first, ls, root);
        ProgressMore(was, mid, Visited(), ls, {u});
        FewerUnvisited(mid, old(Unvisited()));
      }
    }

    lemma FewerUnvisited(was: set<nat>, left: set<nat>)
      requires was <= Visited() && left == (set x | 0 <= x < visited.Length && x !in was)
      ensures Unvisited() <= left
    {
    }

    method SetDistance(u: nat, x: nat, t: nat, ghost edges: seq<Edge>, ghost first: nat, ghost ls: seq<Leaf>, ghost root: nat)
      requires Ready(edges, first, ls, root) && u <= n && visited[u] && x <= n && !visited[x] && EdgeBetween(edges, u, x, t)
      modifies d
      ensures Ready(edges, first, ls, root) && Reached(x, first, ls, root)
    {
      hide Dist, Toward, Vertices, IsTree, EdgeBetween;
      Onward(first, ls, root, u, x, t);
      d[x] := d[u] + t;
    }

    lemma AllNeighbours(u: nat, edges: seq<Edge>, first: nat, ls: seq<Leaf>)
      requires Lists(edges) && Describes(first, ls, edges, n) && u <= n
      requires forall j :: 0 <= j < |v[u]| ==> v[u][j] <= n && v[u][j] in Visited()
      ensures Explored(ls, u, Visited())
    {
      forall y: nat, t: nat | Road(ls, u, y, t) ensures y in Visited() {
        assert EdgeBetween(edges, u, y, t);
        var i :| 0 <= i < |v[u]| && v[u][i] == y && w[u][i] == t;
      }
    }

    // ---- the program ----

    /** init */
    method Init()
      modifies d, visited
      ensures forall x :: 0 <= x < d.Length ==> d[x] == 0
      ensures forall x :: 0 <= x < visited.Length ==> !visited[x]
    {
      forall x | 0 <= x < d.Length {
        d[x] := 0;
      }
      forall x | 0 <= x < visited.Length {
        visited[x] := false;
      }
    }

    /** init and dfs: afterwards the distances from the root to all vertices are known. */
    method Sweep(root: nat, ghost edges: seq<Edge>, ghost first: nat, ghost ls: seq<Leaf>)
      requires Lists(edges) && Describes(first, ls, edges, n) && 1 <= root <= n
      modifies d, visited
      ensures Lists(edges) && forall x :: 1 <= x <= n ==> d[x] == Dist(first, ls, root, x)
    {
      hide Dist, Toward, Vertices, IsTree, Road, EdgeBetween;
      Init();
      SelfDist(first, ls, root);
      assert Visited() == {};
      Dfs(root, edges, first, ls, root);
      Complete(root, first, ls);
      forall x | 1 <= x <= n ensures d[x] == Dist(first, ls, root, x) {
        assert x in Vertices(first, ls) && x in Visited();
      }
    }

    lemma {:induction false} Complete(root: nat, first: nat, ls: seq<Leaf>)
      requires IsTree(first, ls) && root in Vertices(first, ls) && root in Visited() && Progress({}, Visited(), ls, {})
      ensures Vertices(first, ls) <= Visited()
    {
      hide Dist, Toward, Vertices, IsTree, Road;
      forall u, y, t | u in Visited() && Road(ls, u, y, t) ensures y in Visited() {
        assert Explored(ls, u, Visited());
      }
      AllReached(first, ls, Visited(), root);
    }

    /** max_element: the first place of the greatest value of d among 1 to n. */
    method MaxElement() returns (a: nat)
      requires d.Length == n + 1 && n >= 1
      ensures 1 <= a <= n && forall x :: 1 <= x <= n ==> d[x] <= d[a]
    {
      a := 1;
      for x := 2 to n + 1
        invariant 1 <= a <= n && a < x && forall y :: 1 <= y < x ==> d[y] <= d[a]
      {
        if d[x] > d[a] {
          a := x;
        }
      }
    }
  }

  /** main: the cost of the longest way, for every network of n cities that n - 1 roads connect. */
  method Solve(n: nat, edges: seq<Edge>) returns (answer: nat)
    requires ValidRoads(edges, n) && Connected(edges, n)
    ensures exists s :: Diameter(edges, n, s) && answer == Costs(s)
  {
    hide Describes, Dist, Toward, Vertices, IsTree, Road, EdgeBetween, Costs, Calc, Connected, Diameter;
    ghost var ls := FindTree(edges, n);
    var net := new Network(n);
    for i := 0 to |edges|
      invariant net.Lists(edges[..i]) && net.n == n && fresh(net.v) && fresh(net.w) && fresh(net.d) && fresh(net.visited)
    {
      assert edges[..i + 1] == edges[..i] + [edges[i]];
      EdgeEnds(1, ls, edges, n, edges[i]);
      net.AddRoad(edges[i], edges[..i]);
    }
    assert edges[..|edges|] == edges;
    net.Sweep(1, edges, 1, ls);
    var a := net.MaxElement();
    ghost var far := net.d[..];
    net.Sweep(a, edges, 1, ls);
    var b := net.MaxElement();
    ghost var s := net.d[b];
    SweepsFind(1, ls, edges, n, 1, a, b, far, net.d[..]);
    CalcIsSum(s);
    answer := Calc(net.d[b]);
    assert Diameter(edges, n, s) && answer == Costs(s);
  }

  lemma EdgeEnds(first: nat, ls: seq<Leaf>, edges: seq<Edge>, n: nat, e: Edge)
    requires Describes(first, ls, edges, n) && e in edges
    ensures 1 <= e.p <= n && 1 <= e.q <= n && e.p != e.q
  {
    hide Dist, Toward, IsTree;
    assert EdgeBetween(edges, e.p, e.q, e.length);
    assert Road(ls, e.p, e.q, e.length);
    FirstIn(first, ls);
    RoadTowardRoot(first, ls, first, e.p, e.q, e.length);
  }

  lemma SweepsFind(first: nat, ls: seq<Leaf>, edges: seq<Edge>, n: nat, r: nat, a: nat, b: nat, d1: seq<nat>, d2: seq<nat>)
    requires Describes(first, ls, edges, n) && 1 <= r <= n && 1 <= a <= n && 1 <= b <= n && |d1| == |d2| == n + 1
    requires forall x :: 1 <= x <= n ==> d1[x] == Dist(first, ls, r, x) <= d1[a]
    requires forall x :: 1 <= x <= n ==> d2[x] == Dist(first, ls, a, x) <= d2[b]
    ensures Diameter(edges, n, d2[b])
  {
    hide Dist, Vertices, IsTree, Shortest, Road, Way;
    assert Dist(first, ls, a, b) == d2[b];
    DistIsShortest(first, ls, edges, n, a, b);
    forall u: nat, v: nat, d: nat | 1 <= u <= n && 1 <= v <= n && Shortest(edges, u, v, d) ensures d <= d2[b] {
      assert d1[u] <= d1[a] && d1[v] <= d1[a] && d2[u] <= d2[b] && d2[v] <= d2[b];
      TwoSweeps(first, ls, r, a, u, v);
      DistIsShortest(first, ls, edges, n, u, v);
      OneShortest(edges, u, v, d, Dist(first, ls, u, v));
    }
  }
}
