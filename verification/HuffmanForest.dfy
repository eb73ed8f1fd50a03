// The trees that stand in the frequency table of coursedesign/zip/program/huffman.c while calc_code merges
// them. Every root is the top of a planned tree, which is a value with a ghost map from paths to nodes; no two
// trees share a node. Merging two of them links both to a new node and leaves all others untouched, and the
// weights of the roots change as one step of the greedy merge demands.
module HuffmanForest {
  import opened Sums
  import opened BitBytes
  import opened MergeCost
  import opened MergeTree
  import opened HuffmanCode
  import opened HuffmanTree
  import opened HuffmanBuild

  /** What a root in the table stands for: a tree, and the nodes that realise it. */
  datatype Plan = Plan(tree: CodeTree, nodes: PathMap)

  type Plans = map<HNode?, Plan>

  /** The root is the top of its planned tree, in which the lighter child is always the zero one. */
  ghost predicate RootOk(r: HNode?, plan: Plan)
    reads plan.nodes.Values
  {
    [] in plan.nodes && plan.nodes[[]] == r && plan.nodes[[]].parent == null && Shapes(plan.nodes, plan.tree) &&
    LighterFirst(plan.tree)
  }

  ghost function PlannedNodes(plans: Plans): set<HNode> {
    set r, p | r in plans && p in plans[r].nodes :: plans[r].nodes[p]
  }

  /** Every root is the top of its planned tree, no root occurs twice, and no two trees share a node. */
  ghost predicate ForestOk(roots: seq<HNode?>, plans: Plans)
    reads PlannedNodes(plans)
  {
    && plans.Keys == (set r | r in roots)
    && (forall r :: r in roots ==> RootOk(r, plans[r]))
    && (forall r, u :: r in roots && u in roots && r != u ==> plans[r].nodes.Values !! plans[u].nodes.Values)
    && (forall r :: r in roots ==> multiset(roots)[r] == 1)
  }

  lemma ForestPermutation(roots: seq<HNode?>, others: seq<HNode?>, plans: Plans)
    requires ForestOk(roots, plans) && multiset(roots) == multiset(others)
    ensures ForestOk(others, plans)
  {
    assert forall r :: r in roots <==> r in multiset(roots);
    assert forall r :: r in others <==> r in multiset(others);
  }

  lemma FirstTwoDiffer(roots: seq<HNode?>, plans: Plans)
    requires ForestOk(roots, plans) && |roots| >= 2
    ensures roots[0] != roots[1] && roots[0] !in roots[2..] && roots[1] !in roots[2..]
    ensures forall r :: r in roots[2..] ==> multiset(roots[2..])[r] == 1
  {
    assert roots == [roots[0]] + [roots[1]] + roots[2..];
    assert multiset(roots) == multiset{roots[0]} + multiset{roots[1]} + multiset(roots[2..]);
    assert multiset(roots)[roots[0]] == 1 && multiset(roots)[roots[1]] == 1;
    assert forall r :: r in roots[2..] ==> r in roots && multiset(roots[2..])[r] <= multiset(roots)[r];
  }

  function TreeAt(plans: Plans): HNode? -> CodeTree {
    r => if r in plans then plans[r].tree else Leaf(ZERO, 0)
  }

  function Trees(roots: seq<HNode?>, plans: Plans): seq<CodeTree> {
    Map(roots, TreeAt(plans))
  }

  lemma RootWeight(roots: seq<HNode?>, plans: Plans, k: nat)
    requires ForestOk(roots, plans) && k < |roots|
    ensures roots[k] != null && roots[k].parent == null
    ensures roots[k].count == Weight(Trees(roots, plans)[k])
    ensures roots[k] in plans && RootOk(roots[k], plans[roots[k]]) && roots[k] in plans[roots[k]].nodes.Values
  {
    var plan := plans[roots[k]];
    assert RootOk(roots[k], plan);
    assert Holds(plan.nodes[[]], At(plan.tree, []));
  }

  /** In a sorted table the first two roots have the smallest weights. */
  lemma FirstTwoSmallest(roots: seq<HNode?>, plans: Plans)
    requires ForestOk(roots, plans) && SortedTable(roots) && |roots| >= 2
    ensures TwoSmallest(ForestWeights(Trees(roots, plans)), 0, 1)
  {
    hide ForestOk;
    var ws := ForestWeights(Trees(roots, plans));
    forall k | 0 <= k < |roots| ensures roots[k] != null && roots[k].count == ws[k] {
      RootWeight(roots, plans, k);
    }
    forall k | 2 <= k < |roots| ensures ws[0] <= ws[k] && ws[1] <= ws[k] {
      assert Before(roots[0], roots[k]) && Before(roots[1], roots[k]);
    }
  }

  // ---- joining two trees under a new node ----

  ghost function JoinNodes(n: HNode, a: PathMap, b: PathMap): PathMap {
    map q | q in {[]} + (set p | p in a :: [false] + p) + (set p | p in b :: [true] + p)
      :: if q == [] then n else if q[0] then b[q[1..]] else a[q[1..]]
  }

  lemma JoinNodesKeys(n: HNode, a: PathMap, b: PathMap, q: Bits)
    ensures q in JoinNodes(n, a, b) <==> q == [] || (if q[0] then q[1..] in b else q[1..] in a)
  {
    if q != [] {
      assert q == [q[0]] + q[1..];
    }
  }

  lemma JoinNodesValues(n: HNode, a: PathMap, b: PathMap)
    ensures JoinNodes(n, a, b).Values == {n} + a.Values + b.Values
  {
    var m := JoinNodes(n, a, b);
    assert [] in m && m[[]] == n;
    forall x | x in a.Values ensures x in m.Values {
      var p :| p in a && a[p] == x;
      assert ([false] + p)[1..] == p;
      assert [false] + p in m && m[[false] + p] == x;
    }
    forall x | x in b.Values ensures x in m.Values {
      var p :| p in b && b[p] == x;
      assert ([true] + p)[1..] == p;
      assert [true] + p in m && m[[true] + p] == x;
    }
  }

  ghost predicate Adopted(n: HNode, a: PathMap, ta: CodeTree, b: PathMap, tb: CodeTree)
    reads n, a.Values, b.Values
  {
    && [] in a && [] in b
    && a.Values !! b.Values && n !in a.Values && n !in b.Values
    && Shapes(a, ta) && Shapes(b, tb)
    && !n.leaf && n.count == Weight(ta) + Weight(tb)
    && n.zero == a[[]] && n.one == b[[]] && a[[]].parent == n && b[[]].parent == n
  }

  lemma AdoptedLink(n: HNode, a: PathMap, ta: CodeTree, b: PathMap, tb: CodeTree, q: Bits)
    requires Adopted(n, a, ta, b, tb)
    requires q in JoinNodes(n, a, b) && q != []
    ensures DownLink(JoinNodes(n, a, b), q) && UpLink(JoinNodes(n, a, b), q)
  {
    hide JoinNodes;
    var m := JoinNodes(n, a, b);
    var up, x, c := q[..|q| - 1], q[1..], if q[0] then b else a;
    JoinNodesAt(n, a, b, q);
    JoinNodesAt(n, a, b, up);
    if |q| == 1 {
      assert x == [] && up == [];
    } else {
      assert DownLink(c, x) && UpLink(c, x);
      assert up[0] == q[0] && up[1..] == x[..|x| - 1] && x[|x| - 1] == q[|q| - 1];
    }
  }

  lemma JoinNodesAt(n: HNode, a: PathMap, b: PathMap, q: Bits)
    ensures q in JoinNodes(n, a, b) <==> q == [] || (if q[0] then q[1..] in b else q[1..] in a)
    ensures q in JoinNodes(n, a, b) ==>
      JoinNodes(n, a, b)[q] == if q == [] then n else if q[0] then b[q[1..]] else a[q[1..]]
  {
    JoinNodesKeys(n, a, b, q);
  }

  lemma AdoptedInjective(n: HNode, a: PathMap, ta: CodeTree, b: PathMap, tb: CodeTree, p: Bits, q: Bits)
    requires Adopted(n, a, ta, b, tb)
    requires p in JoinNodes(n, a, b) && q in JoinNodes(n, a, b) && JoinNodes(n, a, b)[p] == JoinNodes(n, a, b)[q]
    ensures p == q
  {
    hide JoinNodes, DownLink, UpLink, Holds;
    JoinNodesAt(n, a, b, p);
    JoinNodesAt(n, a, b, q);
    assert p != [] ==> JoinNodes(n, a, b)[p] in if p[0] then b.Values else a.Values;
    assert q != [] ==> JoinNodes(n, a, b)[q] in if q[0] then b.Values else a.Values;
    if p != [] && q != [] {
      assert p == [p[0]] + p[1..] && q == [q[0]] + q[1..];
      assert p[0] == q[0];
      assert p[1..] == q[1..];
    }
  }

  /** Two trees joined under a new node are the nodes of the merged tree. */
  lemma AdoptedShapes(n: HNode, a: PathMap, ta: CodeTree, b: PathMap, tb: CodeTree)
    requires Adopted(n, a, ta, b, tb)
    ensures Shapes(JoinNodes(n, a, b), Node(ta, tb))
  {
    hide JoinNodes, DownLink, UpLink;
    var m, t := JoinNodes(n, a, b), Node(ta, tb);
    forall p ensures p in m <==> IsPath(t, p) {
      JoinNodesAt(n, a, b, p);
    }
    forall p | p in m ensures Holds(m[p], At(t, p)) {
      JoinNodesAt(n, a, b, p);
    }
    forall p, q | p in m && q in m && m[p] == m[q] ensures p == q {
      AdoptedInjective(n, a, ta, b, tb, p, q);
    }
    forall q | q in m && q != [] ensures DownLink(m, q) && UpLink(m, q) {
      AdoptedLink(n, a, ta, b, tb, q);
    }
  }

  ghost function JoinPlan(n: HNode, a: Plan, b: Plan): Plan {
    Plan(Node(a.tree, b.tree), JoinNodes(n, a.nodes, b.nodes))
  }

  ghost function Merged(plans: Plans, n: HNode, m1: HNode?, m2: HNode?): Plans
    requires m1 in plans && m2 in plans
  {
    (plans - {m1, m2})[n := JoinPlan(n, plans[m1], plans[m2])]
  }

  /** In the list of trees, merging the first two is Fold2 up to order. */
  lemma MergedTrees(roots: seq<HNode?>, plans: Plans, n: HNode)
    requires |roots| >= 2 && n !in plans && forall k :: 0 <= k < |roots| ==> roots[k] in plans
    requires roots[0] !in roots[2..] && roots[1] !in roots[2..]
    ensures var f := Trees(roots, plans);
      multiset(Trees([n] + roots[2..], Merged(plans, n, roots[0], roots[1])))
        == multiset(Fold2(f, 0, 1, Node(f[0], f[1])))
  {
    var f := Trees(roots, plans);
    var x := Node(f[0], f[1]);
    assert Trees([n] + roots[2..], Merged(plans, n, roots[0], roots[1])) == [x] + f[2..];
    FoldFirstTwo(f, x);
  }

  lemma FoldFirstTwo<T>(f: seq<T>, x: T)
    requires |f| >= 2
    ensures multiset([x] + f[2..]) == multiset(Fold2(f, 0, 1, x))
  {
    hide Fold2;
    Fold2Items(f, 0, 1, x);
    assert f == [f[0]] + [f[1]] + f[2..];
    assert multiset(f) == multiset{f[0]} + multiset{f[1]} + multiset(f[2..]);
    assert multiset(Fold2(f, 0, 1, x)) == multiset(f) + multiset{x} - multiset{f[0]} - multiset{f[1]};
  }

  lemma MergedJoined(items: seq<(Byte, nat)>, roots: seq<HNode?>, plans: Plans, n: HNode)
    requires ForestOk(roots, plans) && SortedTable(roots) && |roots| >= 2 && n !in plans
    requires Joined(items, Trees(roots, plans))
    ensures Joined(items, Trees([n] + roots[2..], Merged(plans, n, roots[0], roots[1])))
  {
    var f := Trees(roots, plans);
    FirstTwoSmallest(roots, plans);
    FirstTwoDiffer(roots, plans);
    MergedTrees(roots, plans, n);
    hide *;
    JoinTwo(items, f, 0, 1);
    JoinedPermutation(items, Fold2(f, 0, 1, Node(f[0], f[1])),
      Trees([n] + roots[2..], Merged(plans, n, roots[0], roots[1])));
  }

  method SetParent(r: HNode, n: HNode, ghost a: Plan)
    requires RootOk(r, a)
    modifies r`parent
    ensures r.parent == n && a.nodes[[]] == r && Shapes(a.nodes, a.tree)
  {
    assert forall q :: q in a.nodes && q != [] ==> UpLink(a.nodes, q);
    r.parent := n;
    forall q | q in a.nodes && q != [] ensures UpLink(a.nodes, q) {
      assert old(UpLink(a.nodes, q)) && a.nodes[q] != r;
    }
  }

  /** The two trees get n as their parent. */
  method Adopt(n: HNode, m1: HNode, m2: HNode, ghost a: Plan, ghost b: Plan)
    requires RootOk(m1, a) && RootOk(m2, b) && a.nodes.Values !! b.nodes.Values
    requires n !in a.nodes.Values && n !in b.nodes.Values && n.parent == null && m1.count <= m2.count
    requires !n.leaf && n.count == m1.count + m2.count && n.zero == m1 && n.one == m2
    modifies m1`parent, m2`parent
    ensures RootOk(n, JoinPlan(n, a, b))
  {
    hide Shapes, JoinNodes;
    assert m1 in a.nodes.Values && m2 in b.nodes.Values;
    RootCount(m1, a);
    RootCount(m2, b);
    SetParent(m1, n, a);
    SetParent(m2, n, b);
    AdoptedShapes(n, a.nodes, a.tree, b.nodes, b.tree);
    JoinNodesAt(n, a.nodes, b.nodes, []);
  }

  lemma RootCount(r: HNode, plan: Plan)
    requires RootOk(r, plan)
    ensures r.count == Weight(plan.tree)
  {
    assert Holds(plan.nodes[[]], At(plan.tree, []));
  }

  /** The forest without its first two trees. */
  lemma SplitForest(roots: seq<HNode?>, plans: Plans)
    requires ForestOk(roots, plans) && |roots| >= 2
    ensures roots[0] in plans && roots[1] in plans && roots[0] != null && roots[1] != null
    ensures RootOk(roots[0], plans[roots[0]]) && RootOk(roots[1], plans[roots[1]])
    ensures roots[0] in plans[roots[0]].nodes.Values && roots[1] in plans[roots[1]].nodes.Values
    ensures ForestOk(roots[2..], plans - {roots[0], roots[1]})
    ensures plans[roots[0]].nodes.Values !! plans[roots[1]].nodes.Values
    ensures plans[roots[0]].nodes.Values + plans[roots[1]].nodes.Values !! PlannedNodes(plans - {roots[0], roots[1]})
  {
    hide ForestOk, RootOk, PlannedNodes;
    FirstTwoDiffer(roots, plans);
    RootWeight(roots, plans, 0);
    RootWeight(roots, plans, 1);
    ApartRoots(roots, plans, roots[0], roots[1]);
    RestForest(roots, plans);
  }

  lemma ApartRoots(roots: seq<HNode?>, plans: Plans, r: HNode?, u: HNode?)
    requires ForestOk(roots, plans) && r in roots && u in roots && r != u
    ensures r in plans && u in plans && plans[r].nodes.Values !! plans[u].nodes.Values
  {
  }

  lemma RestForest(roots: seq<HNode?>, plans: Plans)
    requires ForestOk(roots, plans) && |roots| >= 2
    requires roots[0] !in roots[2..] && roots[1] !in roots[2..] && roots[0] in plans && roots[1] in plans
    requires forall r :: r in roots[2..] ==> multiset(roots[2..])[r] == 1
    ensures ForestOk(roots[2..], plans - {roots[0], roots[1]})
    ensures plans[roots[0]].nodes.Values + plans[roots[1]].nodes.Values !! PlannedNodes(plans - {roots[0], roots[1]})
  {
    hide RootOk, PlannedNodes;
    var rest, others := plans - {roots[0], roots[1]}, roots[2..];
    forall r ensures r in roots <==> r == roots[0] || r == roots[1] || r in others {
      assert roots == [roots[0], roots[1]] + others;
    }
    assert rest.Keys == set r | r in others;
    OtherNodes(rest, plans[roots[0]].nodes.Values + plans[roots[1]].nodes.Values);
  }

  lemma OtherNodes(plans: Plans, nodes: set<HNode>)
    requires forall r :: r in plans ==> plans[r].nodes.Values !! nodes
    ensures PlannedNodes(plans) !! nodes
  {
  }

  /** The forest with one more tree in front. */
  lemma ExtendForest(roots: seq<HNode?>, plans: Plans, n: HNode, plan: Plan)
    requires ForestOk(roots, plans) && n !in plans && RootOk(n, plan)
    requires plan.nodes.Values !! PlannedNodes(plans)
    ensures ForestOk([n] + roots, plans[n := plan])
  {
    var after := plans[n := plan];
    assert forall r :: r in [n] + roots <==> r == n || r in roots;
    assert multiset([n] + roots) == multiset{n} + multiset(roots);
    assert multiset(roots)[n] == 0;
    forall r | r in roots ensures plans[r].nodes.Values !! plan.nodes.Values {
      assert forall p :: p in plans[r].nodes ==> plans[r].nodes[p] in PlannedNodes(plans);
    }
  }

  lemma LighterInFront(roots: seq<HNode?>)
    requires SortedTable(roots) && |roots| >= 2 && roots[0] != null && roots[1] != null
    ensures roots[0].count <= roots[1].count
  {
    assert Before(roots[0], roots[1]);
  }

  /** Takes the two lightest trees out of the table and puts their join in. */
  method MergeLightest(sf: array<HNode?>, ghost live: nat, ghost plans: Plans, ghost items: seq<(Byte, nat)>)
    returns (ghost after: Plans)
    requires 2 <= live <= sf.Length && ForestOk(sf[..live], plans) && SortedTable(sf[..live])
    requires Joined(items, Trees(sf[..live], plans))
    modifies sf, sf[0], sf[1]
    ensures sf[0] != null && fresh(sf[0]) && sf[1] == null
    ensures forall k :: 2 <= k < sf.Length ==> sf[k] == old(sf[k])
    ensures ForestOk([sf[0]] + old(sf[2..live]), after) && Joined(items, Trees([sf[0]] + old(sf[2..live]), after))
  {
    hide ForestOk, SortedTable, Joined, Trees, RootOk, JoinNodes, JoinPlan;
    ghost var roots := sf[..live];
    assert sf[2..live] == roots[2..];
    var m1, m2 := sf[0], sf[1];
    RootWeight(roots, plans, 0);
    RootWeight(roots, plans, 1);
    ghost var owned := PlannedNodes(plans);
    var n := new HNode.NewNode(m1.count + m2.count, m1, m2);
    assert n !in plans && n !in owned;
    PrepareMerge(roots, plans, items, n);
    ghost var rest := plans - {m1, m2};
    assert m1 !in PlannedNodes(rest) && m2 !in PlannedNodes(rest);
    Adopt(n, m1, m2, plans[m1], plans[m2]);
    assert ForestOk(roots[2..], rest);
    after := Merged(plans, n, m1, m2);
    sf[0], sf[1] := n, null;
    ExtendForest(roots[2..], rest, n, JoinPlan(n, plans[m1], plans[m2]));
  }

  lemma PrepareMerge(roots: seq<HNode?>, plans: Plans, items: seq<(Byte, nat)>, n: HNode)
    requires ForestOk(roots, plans) && SortedTable(roots) && |roots| >= 2 && Joined(items, Trees(roots, plans))
    requires n !in plans && n !in PlannedNodes(plans)
    ensures roots[0] in plans && roots[1] in plans && roots[0] != null && roots[1] != null
    ensures roots[0].count <= roots[1].count
    ensures RootOk(roots[0], plans[roots[0]]) && RootOk(roots[1], plans[roots[1]])
    ensures plans[roots[0]].nodes.Values !! plans[roots[1]].nodes.Values
    ensures n !in plans[roots[0]].nodes.Values && n !in plans[roots[1]].nodes.Values
    ensures ForestOk(roots[2..], plans - {roots[0], roots[1]})
    ensures roots[0] !in PlannedNodes(plans - {roots[0], roots[1]})
    ensures roots[1] !in PlannedNodes(plans - {roots[0], roots[1]})
    ensures JoinPlan(n, plans[roots[0]], plans[roots[1]]).nodes.Values !! PlannedNodes(plans - {roots[0], roots[1]})
    ensures Merged(plans, n, roots[0], roots[1])
      == (plans - {roots[0], roots[1]})[n := JoinPlan(n, plans[roots[0]], plans[roots[1]])]
    ensures Joined(items, Trees([n] + roots[2..], Merged(plans, n, roots[0], roots[1])))
  {
    hide ForestOk, SortedTable, Joined, Trees, RootOk, JoinNodes;
    SplitForest(roots, plans);
    LighterInFront(roots);
    MergedJoined(items, roots, plans, n);
    JoinNodesValues(n, plans[roots[0]].nodes, plans[roots[1]].nodes);
    assert forall k :: 0 <= k <= 1 ==> forall p :: p in plans[roots[k]].nodes ==>
      plans[roots[k]].nodes[p] in PlannedNodes(plans);
  }
}
