/** The tree of labels a router ends up with. Both routing programs break distance ties towards the
    smaller neighbour id; with positive costs that leaves exactly one labelling per root. */
module CanonicalTree {
  import opened Topology

  /** Distances to the root and, for every other reachable node, its neighbour on the way to the root. */
  datatype Rooted<Dists, Hops> = Tree(root: int, dist: Dists, via: Hops)

  type Tree = Rooted<map<int, int>, map<int, int>>

  /** Going from v to its neighbour u loses nothing. */
  ghost predicate Tight(g: Adjacency, t: Tree, v: int, u: int)
    requires v in g && v in t.dist
  {
    u in g[v] && u in t.dist && t.dist[u] < INT_MAX && t.dist[v] == t.dist[u] + g[v][u]
  }

  ghost predicate LeastTight(g: Adjacency, t: Tree, v: int)
    requires v in g && v in t.dist
  {
    && v in t.via
    && Tight(g, t, v, t.via[v])
    && (forall u :: Tight(g, t, v, u) ==> t.via[v] <= u)
  }

  ghost predicate Relaxed(g: Adjacency, t: Tree, u: int, v: int)
    requires u in g && v in g[u] && u in t.dist
  {
    t.dist[u] < INT_MAX ==> v in t.dist && t.dist[v] < INT_MAX && t.dist[v] <= t.dist[u] + g[u][v]
  }

  ghost predicate Canonical(g: Adjacency, t: Tree) {
    && t.root in g && t.dist.Keys == g.Keys && t.dist[t.root] == 0
    && (forall v :: v in g ==> 0 <= t.dist[v] <= INT_MAX)
    && (forall u, v {:trigger Relaxed(g, t, u, v)} :: u in g && v in g[u] ==> Relaxed(g, t, u, v))
    && (forall v {:trigger LeastTight(g, t, v)} :: v in g && v != t.root && t.dist[v] < INT_MAX ==> LeastTight(g, t, v))
  }

  /** The label a tree gives a node. */
  function LabelOf(t: Tree, v: int): Label
    requires v in t.dist
  {
    Label(t.dist[v], if v == t.root then v else if v in t.via then t.via[v] else -1)
  }

  /** From v to the root, neighbour by neighbour. */
  ghost function RootPath(g: Adjacency, t: Tree, v: int): seq<int>
    requires Sound(g) && Canonical(g, t) && v in g && t.dist[v] < INT_MAX
    decreases t.dist[v]
  {
    if v == t.root then [v] else
      assert LeastTight(g, t, v) && Edge(g, v, t.via[v]);
      [v] + RootPath(g, t, t.via[v])
  }

  /** From the root to v: the hop list read off the predecessors. */
  ghost function TreePath(g: Adjacency, t: Tree, v: int): (p: seq<int>)
    requires Sound(g) && Canonical(g, t) && v in g && t.dist[v] < INT_MAX
    ensures p != [] && p[|p| - 1] == v
    decreases t.dist[v]
  {
    if v == t.root then [v] else
      assert LeastTight(g, t, v) && Edge(g, v, t.via[v]);
      TreePath(g, t, t.via[v]) + [v]
  }

  lemma {:induction false} RootPathIsShortest(g: Adjacency, t: Tree, v: int)
    requires Sound(g) && Canonical(g, t) && v in g && t.dist[v] < INT_MAX
    ensures Joins(g, v, t.root, RootPath(g, t, v)) && Cost(g, RootPath(g, t, v)) == t.dist[v]
    decreases t.dist[v]
  {
    if v != t.root {
      assert LeastTight(g, t, v) && Edge(g, v, t.via[v]);
      var rest := RootPath(g, t, t.via[v]);
      RootPathIsShortest(g, t, t.via[v]);
      assert ([v] + rest)[1..] == rest;
    }
  }

  /** The hop list and the path to the root are each other's reverse. */
  lemma {:induction false} TreePathIsReverse(g: Adjacency, t: Tree, v: int)
    requires Sound(g) && Canonical(g, t) && v in g && t.dist[v] < INT_MAX
    ensures TreePath(g, t, v) == Reverse(RootPath(g, t, v))
    decreases t.dist[v]
  {
    if v != t.root {
      assert LeastTight(g, t, v) && Edge(g, v, t.via[v]);
      var rest := RootPath(g, t, t.via[v]);
      TreePathIsReverse(g, t, t.via[v]);
      assert ([v] + rest)[1..] == rest;
    }
  }

  /** Distances never exceed the cost of a walk to the root. */
  lemma {:induction false} DistIsLowerBound(g: Adjacency, t: Tree, p: seq<int>)
    requires Sound(g) && Canonical(g, t) && Walk(g, p) && p[|p| - 1] == t.root
    ensures t.dist[p[0]] < INT_MAX && t.dist[p[0]] <= Cost(g, p)
  {
    if |p| > 1 {
      assert Edge(g, p[0], p[1]);
      DistIsLowerBound(g, t, p[1..]);
      assert Relaxed(g, t, p[1], p[0]);
    }
  }

  /** A canonical tree labels every node with the least (cost, first hop) among all its walks to the root. */
  lemma CanonicalIsBest(g: Adjacency, t: Tree, v: int)
    requires Sound(g) && Canonical(g, t) && v in g
    ensures Best(g, v, t.root, LabelOf(t, v))
  {
    forall p | Joins(g, v, t.root, p)
      ensures t.dist[v] < INT_MAX && !Better(Key(g, p), LabelOf(t, v))
    {
      DistIsLowerBound(g, t, p);
      CostGrows(g, p);
      if |p| > 1 && v != t.root && Cost(g, p) == t.dist[v] {
        assert Edge(g, v, p[1]);
        DistIsLowerBound(g, t, p[1..]);
        assert Relaxed(g, t, p[1], v);
        assert LeastTight(g, t, v) && Tight(g, t, v, p[1]);
      }
    }
    if t.dist[v] < INT_MAX {
      RootPathIsShortest(g, t, v);
      var p := RootPath(g, t, v);
      assert v != t.root ==> LeastTight(g, t, v);
      assert Key(g, p) == LabelOf(t, v);
    }
  }

  lemma BestIsRelaxed(g: Adjacency, t: Tree, u: int, v: int)
    requires Sound(g) && t.dist.Keys == g.Keys && u in g && v in g[u]
    requires forall v :: v in g && v != t.root && t.dist[v] < INT_MAX ==> v in t.via
    requires forall v :: v in g ==> Best(g, v, t.root, LabelOf(t, v))
    ensures Relaxed(g, t, u, v)
    ensures t.dist[u] < INT_MAX ==> !Better(Label(t.dist[u] + g[u][v], u), LabelOf(t, v))
  {
    assert Edge(g, u, v);
    if t.dist[u] < INT_MAX {
      assert Best(g, u, t.root, LabelOf(t, u));
      var p :| Joins(g, u, t.root, p) && Key(g, p) == LabelOf(t, u);
      var q := [v] + p;
      assert q[1..] == p;
      assert Joins(g, v, t.root, q) && Key(g, q) == Label(t.dist[u] + g[u][v], u);
      assert Best(g, v, t.root, LabelOf(t, v));
    }
  }

  lemma BestIsLeastTight(g: Adjacency, t: Tree, v: int)
    requires Sound(g) && t.dist.Keys == g.Keys && v in g && v != t.root && t.dist[v] < INT_MAX
    requires forall v :: v in g && v != t.root && t.dist[v] < INT_MAX ==> v in t.via
    requires forall v :: v in g ==> Best(g, v, t.root, LabelOf(t, v))
    ensures LeastTight(g, t, v)
  {
    assert Best(g, v, t.root, LabelOf(t, v));
    var p :| Joins(g, v, t.root, p) && Key(g, p) == LabelOf(t, v);
    var u := p[1];
    assert u == t.via[v] && Edge(g, v, u) && Joins(g, u, t.root, p[1..]);
    BestIsRelaxed(g, t, u, v);
    assert Best(g, u, t.root, LabelOf(t, u));
    assert !Better(Key(g, p[1..]), LabelOf(t, u));
    forall x | Tight(g, t, v, x) ensures u <= x {
      assert Edge(g, v, x);
      BestIsRelaxed(g, t, x, v);
    }
  }

  /** Conversely, labels that are best for every node form a canonical tree. */
  lemma BestIsCanonical(g: Adjacency, t: Tree)
    requires Sound(g) && t.root in g && t.dist.Keys == g.Keys
    requires forall v :: v in g && v != t.root && t.dist[v] < INT_MAX ==> v in t.via
    requires forall v :: v in g ==> Best(g, v, t.root, LabelOf(t, v))
    ensures Canonical(g, t)
  {
    var s := t.root;
    assert Joins(g, s, s, [s]) && Key(g, [s]) == Label(0, s);
    forall v | v in g ensures 0 <= t.dist[v] <= INT_MAX && (v == s ==> t.dist[v] == 0) {
      assert Best(g, v, s, LabelOf(t, v));
      if t.dist[v] < INT_MAX {
        var p :| Joins(g, v, s, p) && Key(g, p) == LabelOf(t, v);
        CostGrows(g, p);
        if v == s { assert !Better(Key(g, [s]), LabelOf(t, v)); }
      }
    }
    forall u, v | u in g && v in g[u] ensures Relaxed(g, t, u, v) {
      BestIsRelaxed(g, t, u, v);
    }
    forall v | v in g && v != s && t.dist[v] < INT_MAX ensures LeastTight(g, t, v) {
      BestIsLeastTight(g, t, v);
    }
  }

  /** Distances in the tree are shortest from the root, too. */
  lemma TreeIsShortest(g: Adjacency, t: Tree, v: int)
    requires Sound(g) && Canonical(g, t) && v in g
    ensures Shortest(g, t.root, v, t.dist[v])
  {
    CanonicalIsBest(g, t, v);
    BestIsShortest(g, v, t.root, LabelOf(t, v));
    ShortestIsSymmetric(g, v, t.root, t.dist[v]);
  }

  // ---------- Packets forwarded router by router ----------

  /** One canonical tree per router, rooted at that router. */
  ghost predicate AllCanonical(g: Adjacency, trees: map<int, Tree>) {
    trees.Keys == g.Keys && forall s :: s in g ==> trees[s].root == s && Canonical(g, trees[s])
  }

  /** The last node before the root on the chain of predecessors from v. */
  ghost function FirstHop(g: Adjacency, t: Tree, v: int): int
    requires Sound(g) && Canonical(g, t) && v in g && v != t.root && t.dist[v] < INT_MAX
    decreases t.dist[v]
  {
    assert LeastTight(g, t, v) && Edge(g, v, t.via[v]);
    if t.via[v] == t.root then v else FirstHop(g, t, t.via[v])
  }

  /** Where a packet for `to` goes from `at` when each router looks only in its own table,
      for at most `ttl` hops. */
  function Follow(tables: map<int, map<int, int>>, at: int, to: int, ttl: nat): (p: seq<int>)
    ensures p != [] && p[0] == at
    decreases ttl
  {
    if at == to || ttl == 0 || at !in tables || to !in tables[at] then [at]
    else [at] + Follow(tables, tables[at][to], to, ttl - 1)
  }

  /** A router's table sends traffic for v to the first hop of its own tree. */
  ghost predicate RowMatches(g: Adjacency, t: Tree, row: map<int, int>, v: int)
    requires Sound(g) && Canonical(g, t) && v in g
  {
    v != t.root && t.dist[v] < INT_MAX ==> v in row && row[v] == FirstHop(g, t, v)
  }

  ghost predicate TablesMatch(g: Adjacency, trees: map<int, Tree>, tables: map<int, map<int, int>>)
    requires Sound(g) && AllCanonical(g, trees)
  {
    tables.Keys == g.Keys && forall s, v :: s in g && v in g ==> RowMatches(g, trees[s], tables[s], v)
  }

  /** Two trees of one topology whose roots are adjacent. */
  ghost predicate Adjacent(g: Adjacency, ts: Tree, ta: Tree) {
    Canonical(g, ts) && Canonical(g, ta) && ta.root in g[ts.root]
  }

  lemma {:induction false} ViaNeighbour(g: Adjacency, ts: Tree, ta: Tree, v: int)
    requires Sound(g) && Adjacent(g, ts, ta) && v in g && ta.dist[v] < INT_MAX
    ensures ts.dist[v] < INT_MAX && ts.dist[v] <= g[ts.root][ta.root] + ta.dist[v]
    decreases ta.dist[v]
  {
    if v == ta.root {
      assert Relaxed(g, ts, ts.root, v);
    } else {
      assert LeastTight(g, ta, v);
      var q := ta.via[v];
      assert Edge(g, v, q);
      ViaNeighbour(g, ts, ta, q);
      assert Relaxed(g, ts, q, v);
    }
  }

  lemma LastStep(g: Adjacency, t: Tree, v: int)
    requires Sound(g) && Canonical(g, t) && v in g && v != t.root && t.dist[v] < INT_MAX
    ensures LeastTight(g, t, v) && Edge(g, v, t.via[v]) && t.dist[t.via[v]] < t.dist[v]
    ensures TreePath(g, t, v) == TreePath(g, t, t.via[v]) + [v]
    ensures FirstHop(g, t, v) == if t.via[v] == t.root then v else FirstHop(g, t, t.via[v])
  {
    assert LeastTight(g, t, v) && Edge(g, v, t.via[v]);
  }

  /** If s reaches v's predecessor p through its neighbour a, then a chooses p for v as well. */
  lemma SamePredecessor(g: Adjacency, ts: Tree, ta: Tree, v: int, p: int)
    requires Sound(g) && Adjacent(g, ts, ta) && v in g && v != ts.root && ts.dist[v] < INT_MAX
    requires LeastTight(g, ts, v) && p == ts.via[v] && p != ts.root && p in g
    requires ta.dist[p] < INT_MAX && ts.dist[p] == g[ts.root][ta.root] + ta.dist[p]
    ensures v != ta.root && ta.dist[v] < INT_MAX && ts.dist[v] == g[ts.root][ta.root] + ta.dist[v]
    ensures v in ta.via && ta.via[v] == p
  {
    assert Edge(g, v, p) && Edge(g, ts.root, ta.root);
    assert Relaxed(g, ta, p, v);
    ViaNeighbour(g, ts, ta, v);
    assert Relaxed(g, ts, ts.root, ta.root);
    assert LeastTight(g, ta, v);
    var q := ta.via[v];
    assert Edge(g, v, q);
    ViaNeighbour(g, ts, ta, q);
    assert Relaxed(g, ts, q, v);
    assert Tight(g, ts, v, q) && Tight(g, ta, v, p);
  }

  /** The induction step of SharedSuffix: what holds up to p = via[v] holds up to v. */
  lemma SuffixStep(g: Adjacency, ts: Tree, ta: Tree, v: int, p: int)
    requires Sound(g) && Adjacent(g, ts, ta) && v in g && v != ts.root && ts.dist[v] < INT_MAX
    requires v in ts.via && p == ts.via[v] && p != ts.root && p in g && ts.dist[p] < INT_MAX
    requires ta.dist[p] < INT_MAX && ts.dist[p] == g[ts.root][ta.root] + ta.dist[p]
    requires TreePath(g, ts, p) == [ts.root] + TreePath(g, ta, p)
    ensures ta.dist[v] < INT_MAX && ts.dist[v] == g[ts.root][ta.root] + ta.dist[v]
    ensures TreePath(g, ts, v) == [ts.root] + TreePath(g, ta, v)
  {
    LastStep(g, ts, v);
    SamePredecessor(g, ts, ta, v, p);
    LastStep(g, ta, v);
  }

  /** The path s chose, from its first hop a on, is the path a chose. */
  lemma {:induction false} SharedSuffix(g: Adjacency, trees: map<int, Tree>, s: int, v: int)
    requires Sound(g) && AllCanonical(g, trees) && s in g && v in g && v != s && trees[s].dist[v] < INT_MAX
    ensures var a := FirstHop(g, trees[s], v);
            && a in g[s] && a in g && trees[a].dist[v] < INT_MAX
            && trees[s].dist[v] == g[s][a] + trees[a].dist[v]
            && TreePath(g, trees[s], v) == [s] + TreePath(g, trees[a], v)
    decreases trees[s].dist[v]
  {
    var ts := trees[s];
    LastStep(g, ts, v);
    var p := ts.via[v];
    if p == s {
      assert TreePath(g, trees[v], v) == [v];
      assert TreePath(g, ts, s) == [s];
    } else {
      SharedSuffix(g, trees, s, p);
      SuffixStep(g, ts, trees[FirstHop(g, ts, p)], v, p);
    }
  }

  /** The next router a on the way: its own path is what remains of ours. */
  lemma NextRouter(g: Adjacency, trees: map<int, Tree>, tables: map<int, map<int, int>>, s: int, v: int)
    returns (a: int)
    requires Sound(g) && AllCanonical(g, trees) && TablesMatch(g, trees, tables)
    requires s in g && v in g && v != s && trees[s].dist[v] < INT_MAX
    ensures v in tables[s] && a == tables[s][v] && a in g && trees[a].dist[v] < INT_MAX
    ensures TreePath(g, trees[s], v) == [s] + TreePath(g, trees[a], v)
  {
    SharedSuffix(g, trees, s, v);
    assert RowMatches(g, trees[s], tables[s], v);
    a := tables[s][v];
  }

  lemma FollowStep(tables: map<int, map<int, int>>, at: int, to: int, ttl: nat)
    requires at != to && ttl > 0 && at in tables && to in tables[at]
    ensures Follow(tables, at, to, ttl) == [at] + Follow(tables, tables[at][to], to, ttl - 1)
  {
  }

  /** Hop-by-hop forwarding traces out the path in the source's own tree. */
  lemma {:induction false} ForwardingFollowsTree(
      g: Adjacency, trees: map<int, Tree>, tables: map<int, map<int, int>>, s: int, v: int, ttl: nat)
    requires Sound(g) && AllCanonical(g, trees) && TablesMatch(g, trees, tables)
    requires s in g && v in g && trees[s].dist[v] < INT_MAX && ttl >= |TreePath(g, trees[s], v)| - 1
    ensures Follow(tables, s, v, ttl) == TreePath(g, trees[s], v)
    decreases ttl
  {
    if s != v {
      var a := NextRouter(g, trees, tables, s, v);
      ForwardingFollowsTree(g, trees, tables, a, v, ttl - 1);
      FollowStep(tables, s, v, ttl);
    }
  }

  lemma {:induction false} DistRisesAlongPath(g: Adjacency, t: Tree, v: int)
    requires Sound(g) && Canonical(g, t) && v in g && t.dist[v] < INT_MAX
    ensures var p := TreePath(g, t, v);
            p != [] && p[0] == t.root && p[|p| - 1] == v
            && (forall i :: 0 <= i < |p| ==> p[i] in g && t.dist[p[i]] <= t.dist[v])
            && (forall i, j :: 0 <= i < j < |p| ==> t.dist[p[i]] < t.dist[p[j]])
    decreases t.dist[v]
  {
    if v != t.root {
      assert LeastTight(g, t, v) && Edge(g, v, t.via[v]);
      DistRisesAlongPath(g, t, t.via[v]);
    }
  }

  /** A delivered packet visits no router twice and pays exactly the distance reported. */
  lemma ForwardingIsExact(g: Adjacency, trees: map<int, Tree>, tables: map<int, map<int, int>>, s: int, v: int)
    requires Sound(g) && AllCanonical(g, trees) && TablesMatch(g, trees, tables)
    requires s in g && v in g && trees[s].dist[v] < INT_MAX
    ensures var p := Follow(tables, s, v, |g|);
            p == TreePath(g, trees[s], v) && Simple(p) && Joins(g, s, v, p) && Cost(g, p) == trees[s].dist[v]
  {
    var t := trees[s];
    var p := TreePath(g, t, v);
    DistRisesAlongPath(g, t, v);
    SimpleFits(p, g.Keys);
    assert |g.Keys| == |g|;
    ForwardingFollowsTree(g, trees, tables, s, v, |g|);
    RootPathIsShortest(g, t, v);
    TreePathIsReverse(g, t, v);
    ReverseWalk(g, RootPath(g, t, v));
  }

  lemma SimpleReversed(p: seq<int>)
    requires Simple(Reverse(p))
    ensures Simple(p)
  {
    forall i, j | 0 <= i < j < |p| ensures p[i] != p[j] {
      assert Reverse(p)[|p| - 1 - j] != Reverse(p)[|p| - 1 - i];
    }
  }

  lemma RootPathIsSimple(g: Adjacency, t: Tree, v: int)
    requires Sound(g) && Canonical(g, t) && v in g && t.dist[v] < INT_MAX
    ensures Simple(RootPath(g, t, v)) && |RootPath(g, t, v)| <= |g|
  {
    var p := TreePath(g, t, v);
    TreePathIsReverse(g, t, v);
    DistRisesAlongPath(g, t, v);
    SimpleReversed(RootPath(g, t, v));
    SimpleFits(p, g.Keys);
    assert |g.Keys| == |g|;
  }
}
