/** The link-state program: every router runs Dijkstra's search over the whole topology. */
module Linkstate {
  import opened Topology
  import opened CanonicalTree
  import opened TopologyLines

  // ---------- The search on values ----------

  /** rec: distances of the visited nodes; dist: tentative distances of the others; prevs: predecessors. */
  datatype Maps<M> = Search(rec: M, dist: M, prevs: M)

  type Search = Maps<map<int, int>>

  function Value(st: Search, u: int): int {
    if u in st.rec then st.rec[u] else if u in st.dist then st.dist[u] else INT_MAX
  }

  /** The visited node v, other than `skip`, offers its neighbour u a way to the root. */
  ghost predicate Reaches(g: Adjacency, st: Search, skip: int, u: int, v: int)
    requires u in g
  {
    v in g[u] && v in st.rec && v != skip && st.rec[v] < INT_MAX
  }

  ghost function Through(g: Adjacency, st: Search, u: int, v: int): Label
    requires u in g && v in g[u] && v in st.rec
  {
    Label(st.rec[v] + g[u][v], v)
  }

  /** u's value and predecessor are the least of what the visited nodes other than `skip` offer. */
  ghost predicate Chosen(g: Adjacency, st: Search, skip: int, u: int)
    requires u in g
  {
    if Value(st, u) == INT_MAX then
      forall v :: !Reaches(g, st, skip, u, v)
    else
      && u in st.prevs && Reaches(g, st, skip, u, st.prevs[u])
      && Through(g, st, u, st.prevs[u]) == Label(Value(st, u), st.prevs[u])
      && (forall v :: Reaches(g, st, skip, u, v) ==> !Better(Through(g, st, u, v), Label(Value(st, u), st.prevs[u])))
  }

  /** u is visited or waiting, its value is in range and, unless it is the root s, the least offered.
      The waiting nodes in `todo` have yet to hear from `skip`. */
  ghost predicate InPlace(g: Adjacency, s: int, st: Search, bound: int, skip: int, todo: set<int>, u: int)
    requires u in g
  {
    && (u in st.rec <==> u !in st.dist)
    && 0 <= Value(st, u) <= INT_MAX && (Value(st, u) < INT_MAX ==> Value(st, u) <= bound)
    && (if u == s then Value(st, s) == 0
        else Chosen(g, st, if u in todo && u in st.dist then skip else -1, u))
  }

  ghost predicate NoCloser(st: Search, v: int, u: int) {
    v in st.rec && u in st.dist ==> st.rec[v] <= st.dist[u]
  }

  /** The state of the search between two steps. */
  ghost predicate Searching(g: Adjacency, s: int, st: Search, bound: int, skip: int, todo: set<int>) {
    && s in g && (forall u :: u in st.rec || u in st.dist ==> u in g)
    && (s in st.dist ==> st.rec == map[])
    && (forall u {:trigger InPlace(g, s, st, bound, skip, todo, u)} ::
          u in g ==> InPlace(g, s, st, bound, skip, todo, u))
    && (forall v, u {:trigger NoCloser(st, v, u)} :: NoCloser(st, v, u))
  }

  function Visited(st: Search, cur: int): Search
    requires cur in st.dist
  {
    Search(st.rec[cur := st.dist[cur]], st.dist - {cur},
           if st.dist[cur] == INT_MAX then st.prevs[cur := -1] else st.prevs)
  }

  ghost predicate IsClosest(st: Search, cur: int) {
    cur in st.dist && forall u :: u in st.dist ==> st.dist[cur] <= st.dist[u]
  }

  lemma SearchStarts(g: Adjacency, s: int, st: Search)
    requires Sound(g) && s in g && st.rec == map[] && (forall u :: u in st.dist <==> u in g)
    requires forall u :: u in g ==> st.dist[u] == if u == s then 0 else INT_MAX
    ensures Searching(g, s, st, 0, -1, {})
  {
    forall u | u in g ensures InPlace(g, s, st, 0, -1, {}, u) { }
  }

  lemma VisitKeepsNode(g: Adjacency, s: int, st: Search, bound: int, w: nat, cur: int, todo: set<int>, u: int)
    requires Sound(g) && Searching(g, s, st, bound, -1, {}) && IsClosest(st, cur) && u in g
    requires if st.dist[cur] == INT_MAX then todo == {} else todo == g[cur].Keys
    ensures InPlace(g, s, Visited(st, cur), bound + w, cur, todo, u)
  {
    var st' := Visited(st, cur);
    assert InPlace(g, s, st, bound, -1, {}, u) && InPlace(g, s, st, bound, -1, {}, cur);
    if u != s {
      var skip := if u in todo && u in st'.dist then cur else -1;
      assert Value(st', u) == Value(st, u);
      if Value(st, u) < INT_MAX {
        assert Reaches(g, st', skip, u, st'.prevs[u]);
      }
      forall v | Reaches(g, st', skip, u, v)
        ensures Value(st, u) < INT_MAX && !Better(Through(g, st', u, v), Label(Value(st, u), st.prevs[u]))
      {
        assert Edge(g, u, v);
        if v != cur {
          assert Reaches(g, st, -1, u, v);
        } else {
          assert u in st'.rec && NoCloser(st, u, cur);
        }
      }
    }
  }

  /** Visiting the closest waiting node: its neighbours have yet to hear from it, unless it is out of reach. */
  lemma VisitKeeps(g: Adjacency, s: int, st: Search, bound: int, w: nat, cur: int, todo: set<int>)
    requires Sound(g) && Searching(g, s, st, bound, -1, {}) && IsClosest(st, cur)
    requires if st.dist[cur] == INT_MAX then todo == {} else todo == g[cur].Keys
    ensures s in Visited(st, cur).rec && Searching(g, s, Visited(st, cur), bound + w, cur, todo)
  {
    var st' := Visited(st, cur);
    assert InPlace(g, s, st, bound, -1, {}, cur) && InPlace(g, s, st, bound, -1, {}, s);
    if s in st.dist {
      assert forall v :: !Reaches(g, st, -1, cur, v);
      assert st.dist[cur] <= st.dist[s] == 0;
    }
    assert s in st'.rec;
    forall u | u in g ensures InPlace(g, s, st', bound + w, cur, todo, u) {
      VisitKeepsNode(g, s, st, bound, w, cur, todo, u);
    }
    forall v, u ensures NoCloser(st', v, u) {
      assert NoCloser(st, v, u);
    }
  }

  /** cur was visited last. */
  ghost predicate IsLatest(st: Search, cur: int) {
    cur in st.rec && forall v :: v in st.rec ==> st.rec[v] <= st.rec[cur]
  }

  /** The waiting node nei hears from its neighbour cur. */
  function RelaxStep(g: Adjacency, st: Search, cur: int, nei: int): Search
    requires cur in st.rec && cur in g && nei in g[cur]
  {
    if nei !in st.dist then st else
      var newDist := st.rec[cur] + g[cur][nei];
      if newDist < st.dist[nei] || (newDist == st.dist[nei] && nei in st.prevs && cur < st.prevs[nei])
      then Search(st.rec, st.dist[nei := newDist], st.prevs[nei := cur])
      else st
  }

  lemma RelaxKeepsNode(g: Adjacency, s: int, st: Search, bound: int, cur: int, todo: set<int>, nei: int, u: int)
    requires Sound(g) && Searching(g, s, st, bound, cur, todo) && cur in g && IsLatest(st, cur) && u in g
    requires nei in g[cur] && nei in todo && s in st.rec && st.rec[cur] + g[cur][nei] <= bound < INT_MAX
    ensures InPlace(g, s, RelaxStep(g, st, cur, nei), bound, cur, todo - {nei}, u)
  {
    var st' := RelaxStep(g, st, cur, nei);
    assert InPlace(g, s, st, bound, cur, todo, u) && InPlace(g, s, st, bound, cur, todo, cur);
    assert Edge(g, cur, nei);
    if u == nei && nei in st.dist {
      assert Reaches(g, st', -1, nei, cur);
      if nei in st.prevs && st.dist[nei] < INT_MAX { assert Reaches(g, st, cur, nei, st.prevs[nei]); }
      forall v | Reaches(g, st', -1, nei, v)
        ensures !Better(Through(g, st', nei, v), Label(Value(st', nei), st'.prevs[nei]))
      {
        assert v == cur || Reaches(g, st, cur, nei, v);
      }
    } else if u != s {
      var skip := if u in todo && u in st.dist then cur else -1;
      assert Chosen(g, st, skip, u) && Value(st', u) == Value(st, u);
      assert forall v :: Reaches(g, st', skip, u, v) <==> Reaches(g, st, skip, u, v);
    }
  }

  lemma RelaxKeeps(g: Adjacency, s: int, st: Search, bound: int, cur: int, todo: set<int>, nei: int)
    requires Sound(g) && Searching(g, s, st, bound, cur, todo) && cur in g && IsLatest(st, cur)
    requires nei in g[cur] && nei in todo && s in st.rec && st.rec[cur] + g[cur][nei] <= bound < INT_MAX
    ensures Searching(g, s, RelaxStep(g, st, cur, nei), bound, cur, todo - {nei})
  {
    var st' := RelaxStep(g, st, cur, nei);
    assert Edge(g, cur, nei);
    forall u | u in g ensures InPlace(g, s, st', bound, cur, todo - {nei}, u) {
      RelaxKeepsNode(g, s, st, bound, cur, todo, nei, u);
    }
    forall v, u ensures NoCloser(st', v, u) {
      assert NoCloser(st, v, u) && InPlace(g, s, st, bound, cur, todo, cur);
    }
  }

  lemma NobodyLeft(g: Adjacency, s: int, st: Search, bound: int, skip: int, todo: set<int>)
    requires Searching(g, s, st, bound, skip, todo) && forall u :: u !in todo
    ensures Searching(g, s, st, bound, -1, {})
  {
    forall u | u in g ensures InPlace(g, s, st, bound, -1, {}, u) {
      assert InPlace(g, s, st, bound, skip, todo, u);
    }
  }

  /** When every node is visited, what was recorded is the canonical tree. */
  lemma SearchEnds(g: Adjacency, s: int, st: Search, bound: int)
    requires Sound(g) && Searching(g, s, st, bound, -1, {})
    requires (forall u :: u in g ==> u in st.rec) && st.rec.Keys == g.Keys
    ensures Canonical(g, Tree(s, st.rec, st.prevs))
  {
    var t := Tree(s, st.rec, st.prevs);
    forall v | v in g ensures 0 <= t.dist[v] <= INT_MAX && (v == s ==> t.dist[v] == 0) {
      assert InPlace(g, s, st, bound, -1, {}, v);
    }
    forall u, v | u in g && v in g[u] ensures Relaxed(g, t, u, v) {
      assert Edge(g, u, v) && InPlace(g, s, st, bound, -1, {}, v) && InPlace(g, s, st, bound, -1, {}, u);
      if t.dist[u] < INT_MAX { assert Reaches(g, st, -1, v, u); }
    }
    forall v | v in g && v != s && t.dist[v] < INT_MAX ensures LeastTight(g, t, v) {
      assert InPlace(g, s, st, bound, -1, {}, v);
      var p := st.prevs[v];
      assert Reaches(g, st, -1, v, p);
      forall u | Tight(g, t, v, u) ensures p <= u {
        assert Edge(g, v, u) && Reaches(g, st, -1, v, u);
      }
    }
  }

  lemma SubsetFills<T>(a: set<T>, b: set<T>)
    requires a <= b && |a| >= |b|
    ensures a == b
  {
    assert |b - a| == |b| - |a|;
  }

  lemma Missing<T>(a: set<T>, b: set<T>) returns (x: T)
    requires a <= b && |a| < |b|
    ensures x in b && x !in a
  {
    assert |b - a| == |b| - |a|;
    x :| x in b - a;
  }

  lemma Grows<T>(a: set<T>, x: T)
    requires x !in a
    ensures |a + {x}| == |a| + 1
  {
  }

  /** No path over n nodes costs more than this, when no edge costs more than w. */
  ghost function Budget(n: nat, w: nat): nat {
    if n == 0 then 0 else Budget(n - 1, w) + w
  }

  lemma {:induction false} BudgetFits(n: nat, m: nat, w: nat)
    requires n <= m
    ensures Budget(n, w) <= m * w
  {
    if n > 0 {
      BudgetFits(n - 1, m - 1, w);
      assert m * w == (m - 1) * w + w;
    }
  }

  /** Predecessors read off one by one, then the root. */
  ghost function HopList(g: Adjacency, t: Tree, v: int): seq<int>
    requires Sound(g) && Canonical(g, t) && v in g && t.dist[v] < INT_MAX
    decreases t.dist[v]
  {
    if v == t.root then [v] else
      LastStep(g, t, v);
      [t.via[v]] + HopList(g, t, t.via[v])
  }

  lemma ReverseAppend(p: seq<int>, x: int)
    ensures Reverse(p + [x]) == [x] + Reverse(p)
  {
  }

  lemma ReverseButLast(p: seq<int>, x: int)
    requires p != []
    ensures Reverse((p + [x])[..|p|]) == [p[|p| - 1]] + Reverse(p[..|p| - 1])
  {
    assert (p + [x])[..|p|] == p[..|p| - 1] + [p[|p| - 1]];
    ReverseAppend(p[..|p| - 1], p[|p| - 1]);
  }

  lemma {:induction false} HopListIsReverse(g: Adjacency, t: Tree, v: int)
    requires Sound(g) && Canonical(g, t) && v in g && t.dist[v] < INT_MAX
    ensures var path := TreePath(g, t, v); HopList(g, t, v) == Reverse(path[..|path| - 1]) + [t.root]
    decreases t.dist[v]
  {
    if v != t.root {
      LastStep(g, t, v);
      HopListIsReverse(g, t, t.via[v]);
      ReverseButLast(TreePath(g, t, t.via[v]), v);
    }
  }

  /** The list from its last but one element back to its first. */
  method Backwards(list: seq<int>) returns (printed: seq<int>)
    requires list != []
    ensures printed == Reverse(list[..|list| - 1])
  {
    printed := [];
    var i := |list| - 2;
    while i >= 0
      invariant -1 <= i <= |list| - 2 && |printed| == |list| - 2 - i
      invariant forall j :: 0 <= j < |printed| ==> printed[j] == list[|list| - 2 - j]
    {
      printed := printed + [list[i]];
      i := i - 1;
    }
  }

  lemma BackwardsUndoes(path: seq<int>, list: seq<int>, x: int)
    requires path != [] && list == Reverse(path[..|path| - 1]) + [x]
    ensures Reverse(list[..|list| - 1]) == path[..|path| - 1]
  {
    assert list[..|list| - 1] == Reverse(path[..|path| - 1]);
  }

  // ---------- The routers ----------

  /** The nodes of a graph have the edges in g. */
  ghost predicate Wires(graph: map<int, Node>, nodes: set<Node>, g: Adjacency)
    reads nodes`edges, nodes`neibours
  {
    && graph.Keys == g.Keys && |graph| == |g|
    && (forall i {:trigger graph[i]} :: i in graph ==>
          graph[i] in nodes && graph[i].id == i && graph[i].edges == g[i] && graph[i].Linked())
  }

  class Node {
    const id: int
    var neibours: seq<int>
    var edges: map<int, int>
    var forwardingTable: map<int, int>

    /** The neighbour list holds each key of `edges` once. */
    ghost predicate Linked()
      reads `neibours, `edges
    {
      && (forall i, j :: 0 <= i < j < |neibours| ==> neibours[i] != neibours[j])
      && (forall n :: n in neibours <==> n in edges)
    }

    constructor (id: int)
      ensures this.id == id && Linked() && edges == map[] && forwardingTable == map[id := id]
    {
      this.id := id;
      neibours, edges, forwardingTable := [], map[], map[id := id];
    }

    method RemoveNei(neiId: int)
      requires Linked()
      modifies `neibours, `edges
      ensures Linked() && edges == old(edges) - {neiId}
    {
      if neiId in edges {
        var pos := 0;
        while pos < |neibours| && neibours[pos] != neiId
          invariant 0 <= pos <= |neibours| && neiId !in neibours[..pos]
        {
          pos := pos + 1;
        }
        if pos < |neibours| {
          neibours := neibours[..pos] + neibours[pos + 1..];
        }
        edges := edges - {neiId};
      }
    }

    method AddOrUpdateNei(neiId: int, edgeCost: int)
      requires Linked()
      modifies `neibours, `edges
      ensures Linked() && edges == old(edges)[neiId := edgeCost]
    {
      if neiId in edges {
        edges := edges[neiId := edgeCost];
      } else {
        neibours := neibours + [neiId];
        edges := edges[neiId := edgeCost];
      }
    }

    /** The id with the least cost, the smallest one of several, in whatever order the map is read; -1 if there is
        none. */
    method GetIdxOfMinCost(costs: map<int, int>) returns (ret: int)
      requires forall k :: k in costs ==> k >= 0 && costs[k] <= INT_MAX
      ensures costs == map[] ==> ret == -1
      ensures costs != map[] ==>
                ret in costs && forall k :: k in costs ==> costs[ret] < costs[k] || (costs[ret] == costs[k] && ret <= k)
    {
      var min := INT_MAX;
      ret := -1;
      var todo := costs.Keys;
      while todo != {}
        invariant todo <= costs.Keys
        invariant ret == -1 ==> todo == costs.Keys && min == INT_MAX
        invariant ret != -1 ==> ret in costs && ret !in todo && min == costs[ret]
        invariant ret != -1 ==> forall k :: k in costs && k !in todo ==> min < costs[k] || (min == costs[k] && ret <= k)
        decreases todo
      {
        var k := Pick(todo);
        todo := todo - {k};
        if costs[k] < min {
          min := costs[k];
          ret := k;
        } else if costs[k] == min {
          if ret == -1 || k < ret {
            ret := k;
          }
        }
      }
    }

    /** cur's waiting neighbours hear from it, in the order of its list. */
    method RelaxNeibours(cur: Node, st: Search, ghost g: Adjacency, ghost bound: int) returns (st': Search)
      requires Sound(g) && cur.id in g && cur.edges == g[cur.id] && cur.Linked() && IsLatest(st, cur.id)
      requires id in st.rec && Searching(g, id, st, bound, cur.id, g[cur.id].Keys)
      requires forall n :: n in g[cur.id] ==> st.rec[cur.id] + g[cur.id][n] <= bound
      requires bound < INT_MAX
      ensures Searching(g, id, st', bound, -1, {}) && st'.rec == st.rec
      ensures forall v :: v in st.rec && v in st.prevs ==> v in st'.prevs && st'.prevs[v] == st.prevs[v]
    {
      st' := st;
      ghost var todo := g[cur.id].Keys;
      var i := 0;
      while i < |cur.neibours|
        invariant 0 <= i <= |cur.neibours| && st'.rec == st.rec
        invariant forall n :: n in todo <==> n in cur.neibours[i..]
        invariant forall v :: v in st.rec && v in st.prevs ==> v in st'.prevs && st'.prevs[v] == st.prevs[v]
        invariant Searching(g, id, st', bound, cur.id, todo)
      {
        var nei := cur.neibours[i];
        assert nei in cur.neibours[i..] && nei !in cur.neibours[i + 1..];
        assert Edge(g, cur.id, nei);
        RelaxKeeps(g, id, st', bound, cur.id, todo, nei);
        assert InPlace(g, id, st', bound, cur.id, todo, nei);
        todo := todo - {nei};
        i := i + 1;
        if nei in st'.rec {
          continue;
        }
        var oldDist := st'.dist[nei];
        var newDist := st.rec[cur.id] + cur.edges[nei];
        if newDist < oldDist || (newDist == oldDist && cur.id < st'.prevs[nei]) {
          st' := Search(st'.rec, st'.dist[nei := newDist], st'.prevs[nei := cur.id]);
        }
      }
      NobodyLeft(g, id, st', bound, cur.id, todo);
    }

    /** A visited node out of reach is marked with -1 in both tables; no other entry for v changed. */
    ghost predicate MarkedAt(st: Search, before: map<int, int>, v: int)
      reads `forwardingTable
    {
      if v in st.rec && st.rec[v] == INT_MAX then
        v in forwardingTable && forwardingTable[v] == -1 && v in st.prevs && st.prevs[v] == -1
      else
        (v in forwardingTable <==> v in before) && (v in before ==> forwardingTable[v] == before[v])
    }

    ghost predicate Marked(st: Search, before: map<int, int>)
      reads `forwardingTable
    {
      && (forall v {:trigger MarkedAt(st, before, v)} :: MarkedAt(st, before, v))
      && id in st.prevs && (st.rec != map[] ==> id in st.rec) && st.prevs[id] == -1
    }

    /** One visit: the closest waiting node is recorded, and its neighbours hear from it. */
    method Visit(graph: map<int, Node>, st: Search, cur: int,
                 ghost nodes: set<Node>, ghost g: Adjacency, ghost w: nat, ghost bound: int,
                 ghost before: map<int, int>)
      returns (st': Search)
      requires Wires(graph, nodes, g) && Sound(g) && Bounded(g, w)
      requires Searching(g, id, st, bound, -1, {}) && IsClosest(st, cur) && bound + w < INT_MAX
      requires Marked(st, before)
      modifies `forwardingTable
      ensures Searching(g, id, st', bound + w, -1, {}) && st'.rec == st.rec[cur := st.dist[cur]]
      ensures Marked(st', before)
    {
      assert InPlace(g, id, st, bound, -1, {}, cur);
      var dist := st.dist[cur];
      if dist == INT_MAX {
        VisitKeeps(g, id, st, bound, w, cur, {});
        NobodyLeft(g, id, Visited(st, cur), bound + w, cur, {});
        forwardingTable := forwardingTable[cur := -1];
        st' := Search(st.rec[cur := dist], st.dist - {cur}, st.prevs[cur := -1]);
        forall v ensures MarkedAt(st', before, v) {
          assert old(MarkedAt(st, before, v));
        }
        return;
      }
      VisitKeeps(g, id, st, bound, w, cur, g[cur].Keys);
      var node := graph[cur];
      ghost var visited := Visited(st, cur);
      forall v | v in visited.rec ensures visited.rec[v] <= dist {
        assert v == cur || NoCloser(st, v, cur);
      }
      forall n | n in g[cur] ensures dist + g[cur][n] <= bound + w {
        assert g[cur][n] <= w;
      }
      st' := RelaxNeibours(node, Search(st.rec[cur := dist], st.dist - {cur}, st.prevs), g, bound + w);
      forall v ensures MarkedAt(st', before, v) {
        assert old(MarkedAt(st, before, v));
      }
    }

    /** One turn of the search's loop. */
    method VisitClosest(graph: map<int, Node>, st: Search, ghost nodes: set<Node>, ghost g: Adjacency, ghost w: nat,
                        ghost before: map<int, int>)
      returns (cur: int, st': Search)
      requires Wires(graph, nodes, g) && Sound(g) && Bounded(g, w)
      requires st.rec.Keys <= graph.Keys && |st.rec.Keys| < |graph|
      requires Searching(g, id, st, Budget(|st.rec.Keys|, w), -1, {}) && Marked(st, before)
      modifies `forwardingTable
      ensures cur in graph && cur !in st.rec && st'.rec.Keys == st.rec.Keys + {cur}
      ensures Searching(g, id, st', Budget(|st.rec.Keys| + 1, w), -1, {}) && Marked(st', before)
    {
      ghost var bound := Budget(|st.rec.Keys|, w);
      ghost var missing := Missing(st.rec.Keys, graph.Keys);
      assert InPlace(g, id, st, bound, -1, {}, missing);
      forall v | v in st.dist ensures v >= 0 && st.dist[v] <= INT_MAX {
        assert InPlace(g, id, st, bound, -1, {}, v);
      }
      cur := GetIdxOfMinCost(st.dist);
      assert InPlace(g, id, st, bound, -1, {}, cur);
      BudgetFits(|st.rec.Keys| + 1, |graph|, w);
      st' := Visit(graph, st, cur, nodes, g, w, bound, before);
    }

    /** Dijkstra's search from this node over the whole graph. */
    method ShortestPaths(graph: map<int, Node>, ghost nodes: set<Node>, ghost g: Adjacency, ghost w: nat)
      returns (st: Search)
      requires Wires(graph, nodes, g) && Sound(g) && Bounded(g, w) && id in graph
      modifies `forwardingTable
      ensures st.rec.Keys == graph.Keys && Canonical(g, Tree(id, st.rec, st.prevs))
      ensures Marked(st, old(forwardingTable))
    {
      st := Search(map[], (map v | v in graph :: INT_MAX)[id := 0], map[id := -1]);
      var visited: set<int> := {};
      SearchStarts(g, id, st);
      while |visited| < |graph|
        invariant visited <= graph.Keys && st.rec.Keys == visited
        invariant Searching(g, id, st, Budget(|visited|, w), -1, {})
        invariant Marked(st, old(forwardingTable))
        decreases |graph| - |visited|
      {
        var cur;
        cur, st := VisitClosest(graph, st, nodes, g, w, old(forwardingTable));
        Grows(visited, cur);
        visited := visited + {cur};
      }
      SubsetFills(visited, graph.Keys);
      SearchEnds(g, id, st, Budget(|visited|, w));
    }

    /** The hop after this node on the way to `to`, by walking the predecessors back. */
    method FirstHopTo(to: int, prevs: map<int, int>, ghost g: Adjacency, ghost t: Tree) returns (next: int)
      requires Sound(g) && Canonical(g, t) && t.root == id && t.via == prevs
      requires to in g && to != id && t.dist[to] < INT_MAX
      ensures next == FirstHop(g, t, to)
    {
      next := to;
      LastStep(g, t, to);
      var p := prevs[next];
      while p != id
        invariant next in g && next != id && t.dist[next] < INT_MAX && next in prevs && p == prevs[next]
        invariant FirstHop(g, t, next) == FirstHop(g, t, to)
        decreases t.dist[next]
      {
        LastStep(g, t, next);
        LastStep(g, t, p);
        next := p;
        p := prevs[p];
      }
      LastStep(g, t, next);
    }

    /** What the forwarding table says about v after a build: -1 out of reach, else the first hop of the tree. */
    ghost predicate RowBuilt(g: Adjacency, t: Tree, v: int)
      requires Sound(g) && Canonical(g, t)
      reads `forwardingTable
    {
      v in g && v != t.root ==>
        v in forwardingTable && forwardingTable[v] == if t.dist[v] == INT_MAX then -1 else FirstHop(g, t, v)
    }

    /** Runs the search and rewrites the forwarding table: no entry of an earlier table survives but the own one. */
    method BuildForwardingTable(graph: map<int, Node>, ghost nodes: set<Node>, ghost g: Adjacency, ghost w: nat)
      returns (recordDist: map<int, int>, prevs: map<int, int>)
      requires Wires(graph, nodes, g) && Sound(g) && Bounded(g, w) && id in graph
      requires id in forwardingTable && forwardingTable[id] == id
      modifies `forwardingTable
      ensures Canonical(g, Tree(id, recordDist, prevs))
      ensures forall v {:trigger RowBuilt(g, Tree(id, recordDist, prevs), v)} ::
                RowBuilt(g, Tree(id, recordDist, prevs), v)
      ensures id in forwardingTable && forwardingTable[id] == id
    {
      ghost var was := forwardingTable;
      var st := ShortestPaths(graph, nodes, g, w);
      recordDist, prevs := st.rec, st.prevs;
      ghost var t := Tree(id, recordDist, prevs);
      assert MarkedAt(st, was, id);
      var todo := graph.Keys;
      while todo != {}
        invariant todo <= graph.Keys
        invariant id in forwardingTable && forwardingTable[id] == id
        invariant forall v {:trigger MarkedAt(st, was, v)} ::
                    v in todo && t.dist[v] == INT_MAX ==> MarkedAt(st, was, v)
        invariant forall v {:trigger RowBuilt(g, t, v)} :: v in graph && v !in todo ==> RowBuilt(g, t, v)
        decreases todo
      {
        var v := Pick(todo);
        todo := todo - {v};
        label Before:
        assert v != id && t.dist[v] == INT_MAX ==> MarkedAt(st, was, v);
        assert v != id && t.dist[v] < INT_MAX ==> LeastTight(g, t, v) && Edge(g, v, t.via[v]);
        if !(v == id || (v in prevs && prevs[v] == -1)) {
          var next := FirstHopTo(v, prevs, g, t);
          forwardingTable := forwardingTable[v := next];
        }
        assert RowBuilt(g, t, v);
        forall u | u in graph && u !in todo ensures RowBuilt(g, t, u) {
          assert u == v || old@Before(RowBuilt(g, t, u));
        }
        forall u | u in todo && t.dist[u] == INT_MAX ensures MarkedAt(st, was, u) {
          assert old@Before(MarkedAt(st, was, u));
        }
      }
    }
  }

  class LinkState {
    var graph: map<int, Node>
    var prevOfThatNode: map<int, map<int, int>>
    var totalDistance: map<int, map<int, int>>
    ghost var nodes: set<Node>

    /** Every node is filed under its id, and its neighbour list matches its edges. */
    ghost predicate Filed()
      reads this, nodes`edges, nodes`neibours
    {
      forall i {:trigger graph[i]} :: i in graph ==> graph[i] in nodes && graph[i].id == i && graph[i].Linked()
    }

    ghost function Weights(): Adjacency
      requires Filed()
      reads this, nodes`edges, nodes`neibours
    {
      map i | i in graph :: graph[i].edges
    }

    /** Every node forwards to itself what is meant for itself. */
    ghost predicate Tabled()
      reads this, nodes`forwardingTable
    {
      forall i {:trigger graph[i]} :: i in graph ==>
        graph[i] in nodes && i in graph[i].forwardingTable && graph[i].forwardingTable[i] == i
    }

    /** What holds between calls. */
    ghost predicate Valid()
      reads this, nodes
    {
      Filed() && Tabled() && Sound(Weights())
    }

    constructor ()
      ensures Valid() && graph == map[] && nodes == {}
    {
      graph, nodes, prevOfThatNode, totalDistance := map[], {}, map[], map[];
    }

    method AddNode(id: int)
      requires Filed() && Tabled() && id !in graph
      modifies this`graph, this`nodes
      ensures id in graph && fresh(graph[id]) && graph == old(graph)[id := graph[id]]
      ensures nodes == old(nodes) + {graph[id]}
      ensures Filed() && Tabled() && Weights() == old(Weights())[id := map[]]
    {
      var newNode := new Node(id);
      graph, nodes := graph[id := newNode], nodes + {newNode};
    }

    lemma EdgesAre(g: Adjacency)
      requires Filed() && graph.Keys == g.Keys && forall i {:trigger graph[i]} :: i in graph ==> graph[i].edges == g[i]
      ensures Weights() == g
    {
      assert forall i :: i in Weights() <==> i in g;
      assert forall i :: i in g ==> Weights()[i] == g[i];
    }

    method UpdateEdge(from: int, to: int, dist: int)
      requires Filed() && from in graph
      modifies nodes`edges, nodes`neibours
      ensures Filed() && Weights() == WithEdge(old(Weights()), from, to, dist)
    {
      ghost var before := Weights();
      assert forall i {:trigger graph[i]} :: i in graph && i != from ==> graph[i] != graph[from];
      if dist > 0 {
        graph[from].AddOrUpdateNei(to, dist);
      } else {
        graph[from].RemoveNei(to);
      }
      EdgesAre(WithEdge(before, from, to, dist));
    }

    /** One direction of an edge, at the node where it starts; the node is created when it is new. */
    method SetEdge(from: int, to: int, dist: int)
      requires Filed() && Tabled()
      modifies this`graph, this`nodes, nodes`edges, nodes`neibours
      ensures Filed() && Tabled() && Weights() == WithEdge(old(Weights()), from, to, dist)
      ensures old(nodes) <= nodes && fresh(nodes - old(nodes))
    {
      if from in graph {
        UpdateEdge(from, to, dist);
      } else {
        WithEdgeOnNewNode(Weights(), from, to, dist);
        AddNode(from);
        if dist > 0 {
          UpdateEdge(from, to, dist);
        }
      }
    }

    /** Applies one topology line. */
    method BuildGraph(l: Line)
      requires Valid() && l.node1 >= 0 && l.node2 >= 0
      modifies this`graph, this`nodes, nodes`edges, nodes`neibours
      ensures Valid() && old(nodes) <= nodes && fresh(nodes - old(nodes))
      ensures Weights() == ApplyLine(old(Weights()), l)
    {
      ApplyLineKeepsSound(Weights(), l);
      SetEdge(l.node1, l.node2, l.dist);
      SetEdge(l.node2, l.node1, l.dist);
    }

    /** The tree recorded for router i. */
    ghost function TreeAt(i: int): Tree
      reads this
    {
      if i in totalDistance && i in prevOfThatNode then Tree(i, totalDistance[i], prevOfThatNode[i])
      else Tree(i, map[], map[])
    }

    /** Router i's tree and forwarding table are those of topology g. */
    ghost predicate Built(g: Adjacency, i: int)
      reads this, nodes`forwardingTable
    {
      && i in totalDistance && i in prevOfThatNode && Sound(g) && Canonical(g, TreeAt(i))
      && i in graph && graph[i] in nodes
      && (forall v {:trigger graph[i].RowBuilt(g, TreeAt(i), v)} :: graph[i].RowBuilt(g, TreeAt(i), v))
    }

    /** The searches of all routers are done. */
    ghost predicate AllBuilt(g: Adjacency)
      reads this, nodes`forwardingTable
    {
      graph.Keys == g.Keys && Sound(g) && forall i {:trigger Built(g, i)} :: i in graph ==> Built(g, i)
    }

    lemma WiresHold()
      requires Filed()
      ensures Wires(graph, nodes, Weights())
    {
      assert Weights().Keys == graph.Keys && |Weights().Keys| == |Weights()| && |graph.Keys| == |graph|;
    }

    /** Nothing the searches change has a say in the topology or in the validity of the network. */
    lemma StillValid(g: Adjacency)
      requires Wires(graph, nodes, g) && Tabled() && Sound(g)
      ensures Valid() && Weights() == g
    {
      EdgesAre(g);
    }

    method BuildOne(i: int, ghost g: Adjacency, ghost w: nat)
      requires Wires(graph, nodes, g) && Sound(g) && Bounded(g, w) && i in graph && Tabled()
      modifies this`prevOfThatNode, this`totalDistance, nodes`forwardingTable
      ensures Tabled() && Built(g, i)
      ensures forall j {:trigger Built(g, j)} :: j in graph && old(Built(g, j)) ==> Built(g, j)
    {
      var recordDist, prevs := graph[i].BuildForwardingTable(graph, nodes, g, w);
      totalDistance := totalDistance[i := recordDist];
      prevOfThatNode := prevOfThatNode[i := prevs];
    }

    /** The routers run their searches one after the other. */
    method BuildAll(ghost g: Adjacency, ghost w: nat)
      requires Wires(graph, nodes, g) && Sound(g) && Bounded(g, w) && Tabled()
      modifies this`prevOfThatNode, this`totalDistance, nodes`forwardingTable
      ensures Tabled() && forall i {:trigger Built(g, i)} :: i in graph ==> Built(g, i)
    {
      var todo := graph.Keys;
      while todo != {}
        invariant todo <= graph.Keys && Tabled()
        invariant forall i {:trigger Built(g, i)} :: i in graph && i !in todo ==> Built(g, i)
        decreases todo
      {
        var i := Pick(todo);
        todo := todo - {i};
        BuildOne(i, g, w);
      }
    }

    /** Every router runs its search. */
    method BuildNodesForwardingTables(ghost w: nat)
      requires Valid() && Bounded(Weights(), w)
      modifies this`prevOfThatNode, this`totalDistance, nodes`forwardingTable
      ensures Valid() && Weights() == old(Weights()) && AllBuilt(Weights())
    {
      ghost var g := Weights();
      WiresHold();
      BuildAll(g, w);
      StillValid(g);
    }

    /** Reads the topology file. */
    method Load(topo: seq<Line>)
      requires Valid() && graph == map[] && Usable(topo)
      modifies this, nodes
      ensures Valid() && fresh(nodes - old(nodes)) && Weights() == ApplyLines(topo)
    {
      assert Weights() == map[];
      var i := 0;
      while i < |topo|
        invariant 0 <= i <= |topo| && Valid() && fresh(nodes - old(nodes)) && Weights() == ApplyLines(topo[..i])
      {
        OneMoreLine(topo, i);
        BuildGraph(topo[i]);
        i := i + 1;
      }
      assert topo[..i] == topo;
    }

    /** All tables are up to date with topology g. */
    ghost predicate Ready(g: Adjacency)
      reads this, nodes
    {
      Valid() && Weights() == g && AllBuilt(g)
    }

    /** One line of the change file. */
    method Change(l: Line, ghost g: Adjacency, ghost w: nat)
      requires Ready(g) && l.node1 >= 0 && l.node2 >= 0 && Bounded(ApplyLine(g, l), w)
      modifies this, nodes
      ensures Ready(ApplyLine(g, l)) && fresh(nodes - old(nodes))
    {
      BuildGraph(l);
      BuildNodesForwardingTables(w);
    }

    method ReadTopology(topo: seq<Line>, ghost w: nat)
      requires Valid() && graph == map[] && Usable(topo) && Bounded(ApplyLines(topo), w)
      modifies this, nodes
      ensures Ready(ApplyLines(topo)) && fresh(nodes - old(nodes))
    {
      Load(topo);
      BuildNodesForwardingTables(w);
    }

    /** The program's run: the topology file, then one change at a time, with all tables brought up to date after
        each. */
    method Run(topo: seq<Line>, changes: seq<Line>, ghost w: nat)
      requires Valid() && graph == map[] && Usable(topo + changes) && AlwaysBounded(topo, changes, w)
      modifies this, nodes
      ensures Ready(ApplyLines(topo + changes))
    {
      FirstLines(topo, changes, w);
      ReadTopology(topo, w);
      var i := 0;
      while i < |changes|
        invariant 0 <= i <= |changes| && fresh(nodes - old(nodes))
        invariant Ready(ApplyLines(topo + changes[..i]))
      {
        NextChange(topo, changes, i, w);
        Change(changes[i], ApplyLines(topo + changes[..i]), w);
        i := i + 1;
      }
      assert changes[..i] == changes;
    }

    ghost function Trees(): map<int, Tree>
      reads this
    {
      map i | i in graph :: TreeAt(i)
    }

    ghost function Tables(): map<int, map<int, int>>
      reads this, graph.Values`forwardingTable
    {
      map i | i in graph :: graph[i].forwardingTable
    }

    lemma TreeFits(g: Adjacency, s: int, v: int)
      requires Sound(g) && Built(g, s) && v in g
      ensures Canonical(g, TreeAt(s)) && RowMatches(g, TreeAt(s), graph[s].forwardingTable, v)
    {
      assert graph[s].RowBuilt(g, TreeAt(s), v);
    }

    /** The routers' tables send everything to the first hops of the routers' trees. */
    lemma TablesFollowTrees(g: Adjacency, trees: map<int, Tree>, tables: map<int, map<int, int>>)
      requires AllBuilt(g) && trees == Trees() && tables == Tables()
      ensures AllCanonical(g, trees) && TablesMatch(g, trees, tables)
    {
      assert trees.Keys == graph.Keys && tables.Keys == graph.Keys;
      forall s | s in g ensures trees[s].root == s && Canonical(g, trees[s]) {
        assert Built(g, s);
      }
      forall s, v | s in g && v in g ensures RowMatches(g, trees[s], tables[s], v) {
        assert Built(g, s);
        TreeFits(g, s, v);
      }
    }

    /** A packet that every router forwards by its own table takes the path in the source's tree, visits no router
        twice and pays the distance the source recorded, which is the shortest. */
    lemma PacketsFollowTree(g: Adjacency, s: int, v: int)
      requires AllBuilt(g) && s in g && v in g && Built(g, s) && TreeAt(s).dist[v] < INT_MAX
      ensures var p := Follow(Tables(), s, v, |g|);
              && p == TreePath(g, TreeAt(s), v) && Simple(p) && Joins(g, s, v, p)
              && Cost(g, p) == totalDistance[s][v] && Shortest(g, s, v, totalDistance[s][v])
    {
      TablesFollowTrees(g, Trees(), Tables());
      ForwardingIsExact(g, Trees(), Tables(), s, v);
      TreeIsShortest(g, TreeAt(s), v);
    }

    /** The hops from `from` to `to`, last one first, with the source once more at the end. */
    method NextHops(from: int, to: int, ghost g: Adjacency) returns (result: seq<int>)
      requires Built(g, from) && to in g && TreeAt(from).dist[to] < INT_MAX
      ensures var path := TreePath(g, TreeAt(from), to);
              result == Reverse(path[..|path| - 1]) + [from]
    {
      result := [];
      var prevs := prevOfThatNode[from];
      ghost var t := TreeAt(from);
      var curr := to;
      while curr != from
        invariant curr in g && t.dist[curr] < INT_MAX && result + HopList(g, t, curr) == HopList(g, t, to)
        decreases t.dist[curr]
      {
        LastStep(g, t, curr);
        var prev := prevs[curr];
        assert result + ([prev] + HopList(g, t, prev)) == (result + [prev]) + HopList(g, t, prev);
        result := result + [prev];
        curr := prev;
      }
      result := result + [from];
      HopListIsReverse(g, t, to);
    }

    /** The hops as they are printed: the last element of the hop list skipped and the rest read backwards. */
    method PrintedTreePath(from: int, to: int, ghost g: Adjacency) returns (printed: seq<int>)
      requires Built(g, from) && to in g && TreeAt(from).dist[to] < INT_MAX
      ensures var path := TreePath(g, TreeAt(from), to); printed == path[..|path| - 1]
    {
      var list := NextHops(from, to, g);
      printed := Backwards(list);
      BackwardsUndoes(TreePath(g, TreeAt(from), to), list, from);
    }

    /** They are the routers a packet visits when each forwards it by its own table, without the destination. */
    method PrintedHops(from: int, to: int, ghost g: Adjacency) returns (printed: seq<int>)
      requires AllBuilt(g) && from in g && to in g && Built(g, from) && TreeAt(from).dist[to] < INT_MAX
      ensures var path := Follow(Tables(), from, to, |g|); printed == path[..|path| - 1]
    {
      PacketsFollowTree(g, from, to);
      printed := PrintedTreePath(from, to, g);
    }
  }
}
