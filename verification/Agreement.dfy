/** The two routing programs side by side: on one topology they find the same distances and the same paths,
    each program's path being the other's read backwards. */
module Agreement {
  import opened Topology
  import opened CanonicalTree
  import opened Rounds
  import opened TopologyLines
  import Linkstate
  import Distvec

  /** A topology has one canonical tree per root. */
  lemma TreesCoincide(g: Adjacency, a: Tree, b: Tree, v: int)
    requires Sound(g) && Canonical(g, a) && Canonical(g, b) && a.root == b.root && v in g
    ensures a.dist[v] == b.dist[v]
    ensures v != a.root && a.dist[v] < INT_MAX ==> v in a.via && v in b.via && a.via[v] == b.via[v]
  {
    CanonicalIsBest(g, a, v);
    CanonicalIsBest(g, b, v);
    BestIsUnique(g, v, a.root, LabelOf(a, v), LabelOf(b, v));
    if v != a.root && a.dist[v] < INT_MAX {
      assert LeastTight(g, a, v) && LeastTight(g, b, v);
    }
  }

  lemma {:induction false} PathsCoincide(g: Adjacency, a: Tree, b: Tree, v: int)
    requires Sound(g) && Canonical(g, a) && Canonical(g, b) && a.root == b.root && v in g && a.dist[v] < INT_MAX
    ensures b.dist[v] < INT_MAX && RootPath(g, a, v) == RootPath(g, b, v)
    decreases a.dist[v]
  {
    TreesCoincide(g, a, b, v);
    if v != a.root {
      LastStep(g, a, v);
      PathsCoincide(g, a, b, a.via[v]);
    }
  }

  lemma ShortestIsUnique(g: Adjacency, u: int, t: int, c: int, d: int)
    requires Shortest(g, u, t, c) && Shortest(g, u, t, d)
    ensures c == d
  {
    if c != INT_MAX && d != INT_MAX {
      var p :| Joins(g, u, t, p) && Cost(g, p) == c;
      var q :| Joins(g, u, t, q) && Cost(g, q) == d;
      assert d <= Cost(g, p) && c <= Cost(g, q);
    }
  }

  lemma DistIsSymmetric(g: Adjacency, a: Network, u: int, t: int)
    requires Sound(g) && AllBest(g, a) && u in g && t in g
    ensures DistAt(g, a, u, t) == DistAt(g, a, t, u)
  {
    assert Best(g, u, t, At(g, a, u, t)) && Best(g, t, u, At(g, a, t, u));
    BestIsShortest(g, u, t, At(g, a, u, t));
    BestIsShortest(g, t, u, At(g, a, t, u));
    ShortestIsSymmetric(g, u, t, DistAt(g, a, u, t));
    ShortestIsUnique(g, t, u, DistAt(g, a, u, t), DistAt(g, a, t, u));
  }

  /** Router s's link-state tree t and the converged distance-vector tables a: equal costs in both directions,
      predecessors in the one are next hops in the other, and paths are each other's reverse. */
  lemma ProtocolsAgree(g: Adjacency, t: Tree, a: Network, v: int)
    requires Sound(g) && Canonical(g, t) && AllBest(g, a) && v in g
    ensures t.dist[v] == DistAt(g, a, v, t.root) == DistAt(g, a, t.root, v)
    ensures v != t.root && t.dist[v] < INT_MAX ==> v in t.via && t.root in a[v].fwd && t.via[v] == a[v].fwd[t.root]
    ensures t.dist[v] < INT_MAX ==>
              && Canonical(g, TreeTo(a, t.root)) && TreeTo(a, t.root).dist[v] < INT_MAX
              && TreePath(g, t, v) == Reverse(RootPath(g, TreeTo(a, t.root), v))
  {
    var s, back := t.root, TreeTo(a, t.root);
    TreeToIsCanonical(g, a, s);
    LabelToIsBest(g, a, s, v);
    TreesCoincide(g, t, back, v);
    DistIsSymmetric(g, a, v, s);
    if t.dist[v] < INT_MAX {
      PathsCoincide(g, t, back, v);
      TreePathIsReverse(g, t, v);
    }
  }

  // ---------- The path the distance-vector tables describe ----------

  predicate LexLe(p: seq<int>, q: seq<int>) {
    p == [] || (q != [] && (p[0] < q[0] || (p[0] == q[0] && LexLe(p[1..], q[1..]))))
  }

  /** Of all shortest walks to the root, the tree's is the first in lexicographic order. */
  lemma {:induction false} RootPathIsLexLeast(g: Adjacency, t: Tree, v: int, q: seq<int>)
    requires Sound(g) && Canonical(g, t) && Joins(g, v, t.root, q) && Cost(g, q) == t.dist[v] < INT_MAX
    ensures LexLe(RootPath(g, t, v), q)
    decreases |q|
  {
    if v != t.root {
      var u := q[1];
      assert Edge(g, v, u);
      DistIsLowerBound(g, t, q[1..]);
      assert Relaxed(g, t, u, v) && Tight(g, t, v, u) && LeastTight(g, t, v);
      var rest := RootPath(g, t, t.via[v]);
      assert RootPath(g, t, v) == [v] + rest && ([v] + rest)[1..] == rest;
      if t.via[v] == u {
        RootPathIsLexLeast(g, t, u, q[1..]);
      }
    }
  }

  lemma WalkIsNoBetter(g: Adjacency, t: Tree, v: int, q: seq<int>)
    requires Sound(g) && Canonical(g, t) && Joins(g, v, t.root, q)
    ensures t.dist[v] < INT_MAX && t.dist[v] <= Cost(g, q)
    ensures Cost(g, q) == t.dist[v] ==> LexLe(RootPath(g, t, v), q)
  {
    DistIsLowerBound(g, t, q);
    if Cost(g, q) == t.dist[v] { RootPathIsLexLeast(g, t, v, q); }
  }

  /** Converged distance-vector forwarding delivers along the lexicographically least shortest path. */
  lemma ConvergedForwardingIsLexLeast(g: Adjacency, a: Network, tables: map<int, map<int, int>>, u: int, t: int)
    requires Sound(g) && AllBest(g, a) && TablesOf(a, tables) && u in g && t in g && DistAt(g, a, u, t) < INT_MAX
    ensures var p := Follow(tables, u, t, |g|);
            && Simple(p) && Joins(g, u, t, p) && Cost(g, p) == DistAt(g, a, u, t)
            && (forall q :: Joins(g, u, t, q) ==>
                  Cost(g, p) <= Cost(g, q) && (Cost(g, q) == Cost(g, p) ==> LexLe(p, q)))
  {
    var tree := TreeTo(a, t);
    PacketsFollowTreeTo(g, a, tables, u, t);
    LabelToIsBest(g, a, t, u);
    RootPathIsShortest(g, tree, u);
    RootPathIsSimple(g, tree, u);
    forall q | Joins(g, u, t, q)
      ensures tree.dist[u] <= Cost(g, q) && (Cost(g, q) == tree.dist[u] ==> LexLe(RootPath(g, tree, u), q))
    {
      WalkIsNoBetter(g, tree, u, q);
    }
  }

  // ---------- The programs themselves ----------

  /** What one program's fields say about routers s and v, the other's fields say too. */
  ghost predicate SameAnswers(ls: Linkstate.LinkState, dv: Distvec.DistanceVector, s: int, v: int)
    reads ls, dv, dv.nodes
  {
    && s in dv.graph && v in dv.graph && dv.graph[s] in dv.nodes && dv.graph[v] in dv.nodes
    && s in ls.totalDistance && s in ls.prevOfThatNode && v in ls.totalDistance[s]
    && s in dv.graph[v].distanceToThatNode && v in dv.graph[s].distanceToThatNode
    && ls.totalDistance[s][v] == dv.graph[v].distanceToThatNode[s] == dv.graph[s].distanceToThatNode[v]
    && (v != s && ls.totalDistance[s][v] < INT_MAX ==>
          && v in ls.prevOfThatNode[s] && s in dv.graph[v].forwardingTable
          && ls.prevOfThatNode[s][v] == dv.graph[v].forwardingTable[s])
  }

  lemma ProgramsAgree(ls: Linkstate.LinkState, dv: Distvec.DistanceVector, s: int, v: int)
    requires ls.Valid() && dv.Valid() && ls.Weights() == dv.Weights() && s in ls.graph && v in ls.graph
    requires ls.Built(ls.Weights(), s) && AllBest(dv.Weights(), dv.View())
    ensures SameAnswers(ls, dv, s, v)
  {
    var g, a := dv.Weights(), dv.View();
    assert s in g && v in g && Row(g, a, v) && Row(g, a, s);
    ProtocolsAgree(g, ls.TreeAt(s), a, v);
  }

  /** The two programs run on topologies that name the same nodes and last say the same about every pair, by whatever
      changes: they agree about all routers. */
  lemma RunsAgree(ls: Linkstate.LinkState, dv: Distvec.DistanceVector, x: seq<Line>, y: seq<Line>)
    requires Usable(x) && Usable(y) && forall i, j {:trigger SameHistory(x, y, i, j)} :: SameHistory(x, y, i, j)
    requires ls.Ready(ApplyLines(x)) && dv.Ready(ApplyLines(y))
    ensures forall s, v {:trigger SameAnswers(ls, dv, s, v)} ::
              s in ls.graph && v in ls.graph ==> SameAnswers(ls, dv, s, v)
  {
    SameTopology(x, y);
    forall s, v | s in ls.graph && v in ls.graph ensures SameAnswers(ls, dv, s, v) {
      assert ls.Built(ls.Weights(), s);
      ProgramsAgree(ls, dv, s, v);
    }
  }

  /** Of two histories that name the same nodes and last say the same about every pair, the distance-vector program
      remembers nothing: distances are equal, and so are the next hops to whatever can be reached. */
  lemma DistvecForgets(x: seq<Line>, y: seq<Line>, a: Network, b: Network, u: int, t: int)
    requires Usable(x) && Usable(y) && forall i, j {:trigger SameHistory(x, y, i, j)} :: SameHistory(x, y, i, j)
    requires AllBest(ApplyLines(x), a) && AllBest(ApplyLines(y), b) && u in ApplyLines(x) && t in ApplyLines(x)
    ensures u in ApplyLines(y) && t in ApplyLines(y)
    ensures DistAt(ApplyLines(x), a, u, t) == DistAt(ApplyLines(y), b, u, t)
    ensures DistAt(ApplyLines(x), a, u, t) < INT_MAX ==> At(ApplyLines(x), a, u, t) == At(ApplyLines(y), b, u, t)
  {
    var g := ApplyLines(x);
    SameTopology(x, y);
    assert Best(g, u, t, At(g, a, u, t)) && Best(g, u, t, At(g, b, u, t));
    BestIsUnique(g, u, t, At(g, a, u, t), At(g, b, u, t));
  }

  lemma {:induction false} FirstHopsCoincide(g: Adjacency, a: Tree, b: Tree, v: int)
    requires Sound(g) && Canonical(g, a) && Canonical(g, b) && a.root == b.root
    requires v in g && v != a.root && a.dist[v] < INT_MAX
    ensures b.dist[v] < INT_MAX && FirstHop(g, a, v) == FirstHop(g, b, v)
    decreases a.dist[v]
  {
    TreesCoincide(g, a, b, v);
    assert LeastTight(g, a, v) && Edge(g, v, a.via[v]);
    if a.via[v] != a.root {
      FirstHopsCoincide(g, a, b, a.via[v]);
    }
  }

  /** Nor does the link-state program: distances, predecessors and first hops are equal. */
  lemma LinkstateForgets(x: seq<Line>, y: seq<Line>, a: Tree, b: Tree, v: int)
    requires Usable(x) && Usable(y) && forall i, j {:trigger SameHistory(x, y, i, j)} :: SameHistory(x, y, i, j)
    requires Canonical(ApplyLines(x), a) && Canonical(ApplyLines(y), b) && a.root == b.root && v in ApplyLines(x)
    ensures ApplyLines(x) == ApplyLines(y) && Sound(ApplyLines(x)) && v in b.dist && a.dist[v] == b.dist[v]
    ensures v != a.root && a.dist[v] < INT_MAX ==> v in a.via && v in b.via && a.via[v] == b.via[v]
    ensures v != a.root && a.dist[v] < INT_MAX ==> FirstHop(ApplyLines(x), a, v) == FirstHop(ApplyLines(y), b, v)
  {
    SameTopology(x, y);
    LinesAreSound(x);
    TreesCoincide(ApplyLines(x), a, b, v);
    if v != a.root && a.dist[v] < INT_MAX { FirstHopsCoincide(ApplyLines(x), a, b, v); }
  }

  /** ... and so are the forwarding tables of two of its runs. */
  lemma TablesForget(l: Linkstate.LinkState, m: Linkstate.LinkState, x: seq<Line>, y: seq<Line>, s: int, v: int)
    requires Usable(x) && Usable(y) && forall i, j {:trigger SameHistory(x, y, i, j)} :: SameHistory(x, y, i, j)
    requires l.Ready(ApplyLines(x)) && m.Ready(ApplyLines(y)) && s in l.graph && v in l.graph && v != s
    ensures s in m.graph && v in l.graph[s].forwardingTable && v in m.graph[s].forwardingTable
    ensures l.graph[s].forwardingTable[v] == m.graph[s].forwardingTable[v]
  {
    var g := ApplyLines(x);
    SameTopology(x, y);
    assert l.Built(g, s) && s in g && v in g && s in m.graph;
    assert m.Built(g, s);
    LinkstateForgets(x, y, l.TreeAt(s), m.TreeAt(s), v);
    assert l.graph[s].RowBuilt(g, l.TreeAt(s), v) && m.graph[s].RowBuilt(g, m.TreeAt(s), v);
  }
}
