/** Weighted topologies, the walks over them, and what a shortest-path label is.
    A label pairs a distance with a neighbour; labels are compared by distance first and by
    neighbour id second, which is the comparison both routing programs make. */
module Topology {

  const INT_MAX: int := 0x7fff_ffff

  /** Node id to its edges: neighbour id to cost. */
  type Adjacency = map<int, map<int, int>>

  ghost predicate Edge(g: Adjacency, u: int, v: int)
    requires u in g && v in g[u]
  {
    v in g && g[u][v] > 0 && u in g[v] && g[v][u] == g[u][v]
  }

  /** Ids are non-negative, every edge has a positive cost and an equal twin in the other direction. */
  ghost predicate Sound(g: Adjacency) {
    && (forall u :: u in g ==> u >= 0)
    && (forall u, v {:trigger Edge(g, u, v)} :: u in g && v in g[u] ==> Edge(g, u, v))
  }

  /** No sum of node-count many edge costs reaches the infinity sentinel. */
  ghost predicate Bounded(g: Adjacency, w: nat) {
    && (forall u, v :: u in g && v in g[u] ==> g[u][v] <= w)
    && |g| * w < INT_MAX
  }

  datatype Label = Label(dist: int, via: int)

  predicate Better(a: Label, b: Label) {
    a.dist < b.dist || (a.dist == b.dist && a.via < b.via)
  }

  // ---------- Walks ----------

  ghost predicate Walk(g: Adjacency, p: seq<int>) {
    p != [] && p[0] in g && (|p| > 1 ==> p[1] in g[p[0]] && Walk(g, p[1..]))
  }

  ghost function Cost(g: Adjacency, p: seq<int>): int
    requires Walk(g, p)
  {
    if |p| == 1 then 0 else g[p[0]][p[1]] + Cost(g, p[1..])
  }

  ghost predicate Joins(g: Adjacency, u: int, t: int, p: seq<int>) {
    Walk(g, p) && p[0] == u && p[|p| - 1] == t
  }

  /** What a router could record for the walk p: its cost and its first hop. */
  ghost function Key(g: Adjacency, p: seq<int>): Label
    requires Walk(g, p)
  {
    Label(Cost(g, p), if |p| > 1 then p[1] else p[0])
  }

  /** l is the least key over the walks from u to t of at most k edges; INT_MAX says there is none. */
  ghost predicate BestWithin(g: Adjacency, k: int, u: int, t: int, l: Label) {
    if l.dist == INT_MAX then
      forall p :: Joins(g, u, t, p) ==> |p| - 1 > k
    else
      && l.dist < INT_MAX
      && (exists p :: Joins(g, u, t, p) && |p| - 1 <= k && Key(g, p) == l)
      && (forall p :: Joins(g, u, t, p) && |p| - 1 <= k ==> !Better(Key(g, p), l))
  }

  /** l is the least key over all walks from u to t. */
  ghost predicate Best(g: Adjacency, u: int, t: int, l: Label) {
    if l.dist == INT_MAX then
      forall p :: !Joins(g, u, t, p)
    else
      && l.dist < INT_MAX
      && (exists p :: Joins(g, u, t, p) && Key(g, p) == l)
      && (forall p :: Joins(g, u, t, p) ==> !Better(Key(g, p), l))
  }

  /** d is the least cost of a walk from u to t, or INT_MAX when there is no walk. */
  ghost predicate Shortest(g: Adjacency, u: int, t: int, d: int) {
    if d == INT_MAX then
      forall p :: !Joins(g, u, t, p)
    else
      && (exists p :: Joins(g, u, t, p) && Cost(g, p) == d)
      && (forall p :: Joins(g, u, t, p) ==> d <= Cost(g, p))
  }

  lemma {:induction false} CostGrows(g: Adjacency, p: seq<int>)
    requires Sound(g) && Walk(g, p)
    ensures Cost(g, p) >= |p| - 1
  {
    if |p| > 1 {
      assert Edge(g, p[0], p[1]);
      CostGrows(g, p[1..]);
    }
  }

  lemma {:induction false} CostBounded(g: Adjacency, w: nat, p: seq<int>)
    requires Bounded(g, w) && Walk(g, p)
    ensures Cost(g, p) <= (|p| - 1) * w
  {
    if |p| > 1 {
      var u, v := p[0], p[1];
      assert u in g && v in g[u];
      assert g[u][v] <= w;
      CostBounded(g, w, p[1..]);
      calc {
        Cost(g, p);
        g[p[0]][p[1]] + Cost(g, p[1..]);
      <=
        w + (|p| - 2) * w;
        (|p| - 1) * w;
      }
    }
  }

  lemma {:induction false} SuffixOfWalk(g: Adjacency, p: seq<int>, i: nat)
    requires Sound(g) && Walk(g, p) && i < |p|
    ensures Walk(g, p[i..]) && Cost(g, p[i..]) <= Cost(g, p)
  {
    if i > 0 {
      assert Edge(g, p[0], p[1]);
      SuffixOfWalk(g, p[1..], i - 1);
      assert p[1..][i - 1..] == p[i..];
    } else {
      assert p[i..] == p;
    }
  }

  ghost predicate Simple(p: seq<int>) {
    forall i, j :: 0 <= i < j < |p| ==> p[i] != p[j]
  }

  /** Cutting the cycles out of a walk yields a simple walk with the same ends whose key is no worse. */
  lemma {:induction false} CutCycles(g: Adjacency, p: seq<int>) returns (q: seq<int>)
    requires Sound(g) && Walk(g, p)
    ensures Joins(g, p[0], p[|p| - 1], q) && Simple(q) && !Better(Key(g, p), Key(g, q))
    decreases |p|
  {
    if |p| == 1 {
      q := p;
    } else {
      assert Edge(g, p[0], p[1]);
      var r := CutCycles(g, p[1..]);
      if i :| 0 <= i < |r| && r[i] == p[0] {
        SuffixOfWalk(g, r, i);
        q := r[i..];
      } else {
        q := [p[0]] + r;
        assert q[1..] == r;
      }
    }
  }

  lemma {:induction false} NodesOfWalk(g: Adjacency, p: seq<int>)
    requires Walk(g, p)
    ensures forall i :: 0 <= i < |p| ==> p[i] in g
  {
    if |p| > 1 {
      NodesOfWalk(g, p[1..]);
      forall i | 0 <= i < |p| ensures p[i] in g {
        if i > 0 { assert p[i] == p[1..][i - 1]; }
      }
    }
  }

  lemma {:induction false} SimpleFits(p: seq<int>, nodes: set<int>)
    requires Simple(p) && forall i :: 0 <= i < |p| ==> p[i] in nodes
    ensures |p| <= |nodes|
  {
    if p != [] {
      SimpleFits(p[1..], nodes - {p[0]});
    }
  }

  /** A label that is best within |g| - 1 edges is best outright, and conversely for every larger bound. */
  lemma BestWithinNodes(g: Adjacency, k: int, u: int, t: int, l: Label)
    requires Sound(g) && k >= |g| - 1
    ensures BestWithin(g, k, u, t, l) <==> Best(g, u, t, l)
  {
    forall p | Joins(g, u, t, p)
      ensures exists q :: Joins(g, u, t, q) && |q| - 1 <= k && !Better(Key(g, p), Key(g, q))
    {
      var q := CutCycles(g, p);
      NodesOfWalk(g, q);
      SimpleFits(q, g.Keys);
      assert |g.Keys| == |g|;
    }
  }

  lemma BestIsUnique(g: Adjacency, u: int, t: int, a: Label, b: Label)
    requires Best(g, u, t, a) && Best(g, u, t, b)
    ensures a.dist == b.dist && (a.dist != INT_MAX ==> a == b)
  {
  }

  lemma BestIsShortest(g: Adjacency, u: int, t: int, l: Label)
    requires Best(g, u, t, l)
    ensures Shortest(g, u, t, l.dist)
  {
    forall p | Joins(g, u, t, p) ensures l.dist <= Cost(g, p) {
      if l.dist < INT_MAX {
        assert !Better(Key(g, p), l);
      }
    }
    if l.dist < INT_MAX {
      var p :| Joins(g, u, t, p) && Key(g, p) == l;
      assert Cost(g, p) == l.dist;
    }
  }

  // ---------- Iteration ----------

  /** Some member of a set: loops over keys pick them in an order nothing may depend on. */
  method Pick<T(==)>(s: set<T>) returns (x: T)
    requires s != {}
    ensures x in s
  {
    x :| x in s;
  }

  // ---------- Reversal ----------

  function Reverse(p: seq<int>): (r: seq<int>)
    ensures |r| == |p|
    ensures forall i :: 0 <= i < |p| ==> r[i] == p[|p| - 1 - i]
  {
    if p == [] then [] else Reverse(p[1..]) + [p[0]]
  }

  lemma {:induction false} ExtendWalk(g: Adjacency, p: seq<int>, v: int)
    requires Sound(g) && Walk(g, p) && p[|p| - 1] in g && v in g[p[|p| - 1]]
    ensures Walk(g, p + [v]) && Cost(g, p + [v]) == Cost(g, p) + g[p[|p| - 1]][v]
  {
    assert Edge(g, p[|p| - 1], v);
    if |p| > 1 {
      ExtendWalk(g, p[1..], v);
      assert (p + [v])[1..] == p[1..] + [v];
    } else {
      assert (p + [v])[1..] == [v];
    }
  }

  lemma {:induction false} ReverseWalk(g: Adjacency, p: seq<int>)
    requires Sound(g) && Walk(g, p)
    ensures Joins(g, p[|p| - 1], p[0], Reverse(p)) && Cost(g, Reverse(p)) == Cost(g, p)
  {
    if |p| > 1 {
      assert Edge(g, p[0], p[1]);
      ReverseWalk(g, p[1..]);
      ExtendWalk(g, Reverse(p[1..]), p[0]);
    }
  }

  /** Distances in a sound topology do not depend on the direction travelled. */
  lemma ShortestIsSymmetric(g: Adjacency, u: int, t: int, d: int)
    requires Sound(g) && Shortest(g, u, t, d)
    ensures Shortest(g, t, u, d)
  {
    forall p | Joins(g, t, u, p)
      ensures Joins(g, u, t, Reverse(p)) && Cost(g, Reverse(p)) == Cost(g, p)
    {
      ReverseWalk(g, p);
    }
    if d != INT_MAX {
      var p :| Joins(g, u, t, p) && Cost(g, p) == d;
      ReverseWalk(g, p);
    }
  }
}
