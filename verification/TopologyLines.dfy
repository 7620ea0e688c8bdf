/** Topology lines "node node cost", as both routing programs apply them to their graphs. */
module TopologyLines {
  import opened Topology

  datatype Line = Line(node1: int, node2: int, dist: int)

  /** One direction of an edge: a positive cost sets it, any other removes it; an unknown node is added. */
  function WithEdge(g: Adjacency, from: int, to: int, dist: int): Adjacency {
    var e := if from in g then g[from] else map[];
    g[from := if dist > 0 then e[to := dist] else e - {to}]
  }

  lemma WithEdgeOnNewNode(g: Adjacency, from: int, to: int, dist: int)
    requires from !in g
    ensures WithEdge(g[from := map[]], from, to, dist) == WithEdge(g, from, to, dist)
    ensures dist <= 0 ==> WithEdge(g, from, to, dist) == g[from := map[]]
  {
    var none: map<int, int> := map[];
    assert none - {to} == none;
  }

  function ApplyLine(g: Adjacency, l: Line): Adjacency {
    WithEdge(WithEdge(g, l.node1, l.node2, l.dist), l.node2, l.node1, l.dist)
  }

  function ApplyLines(lines: seq<Line>): Adjacency {
    if lines == [] then map[] else ApplyLine(ApplyLines(lines[..|lines| - 1]), lines[|lines| - 1])
  }

  predicate Mentions(l: Line, n: int) {
    l.node1 == n || l.node2 == n
  }

  predicate About(l: Line, a: int, b: int) {
    (l.node1 == a && l.node2 == b) || (l.node1 == b && l.node2 == a)
  }

  /** The cost on the last line for the pair {a, b}; 0 when no line is about it. */
  function LastCost(lines: seq<Line>, a: int, b: int): int {
    if lines == [] then 0 else
      var l := lines[|lines| - 1];
      if About(l, a, b) then l.dist else LastCost(lines[..|lines| - 1], a, b)
  }

  lemma ApplyLineKeepsSound(g: Adjacency, l: Line)
    requires Sound(g) && l.node1 >= 0 && l.node2 >= 0
    ensures Sound(ApplyLine(g, l))
  {
    var h := ApplyLine(g, l);
    forall u, v | u in h && v in h[u] ensures Edge(h, u, v) {
      if u in g && v in g[u] { assert Edge(g, u, v); }
    }
  }

  ghost predicate Usable(lines: seq<Line>) {
    forall i :: 0 <= i < |lines| ==> lines[i].node1 >= 0 && lines[i].node2 >= 0
  }

  ghost predicate BoundedAfter(topo: seq<Line>, changes: seq<Line>, i: int, w: nat)
    requires 0 <= i <= |changes|
  {
    Bounded(ApplyLines(topo + changes[..i]), w)
  }

  /** The topology is bounded whenever routes are computed: after the topology file and after every change. */
  ghost predicate AlwaysBounded(topo: seq<Line>, changes: seq<Line>, w: nat) {
    forall i {:trigger BoundedAfter(topo, changes, i, w)} :: 0 <= i <= |changes| ==> BoundedAfter(topo, changes, i, w)
  }

  lemma OneMoreLine(lines: seq<Line>, i: nat)
    requires i < |lines|
    ensures ApplyLines(lines[..i + 1]) == ApplyLine(ApplyLines(lines[..i]), lines[i])
  {
    assert lines[..i + 1][..i] == lines[..i];
  }

  lemma FirstLines(topo: seq<Line>, changes: seq<Line>, w: nat)
    requires Usable(topo + changes) && AlwaysBounded(topo, changes, w)
    ensures Usable(topo) && Bounded(ApplyLines(topo), w) && topo + changes[..0] == topo
  {
    assert topo + changes[..0] == topo;
    assert BoundedAfter(topo, changes, 0, w);
    forall i | 0 <= i < |topo| ensures topo[i].node1 >= 0 && topo[i].node2 >= 0 {
      assert (topo + changes)[i] == topo[i];
    }
  }

  lemma LastLine(topo: seq<Line>, changes: seq<Line>, i: nat)
    requires i < |changes|
    ensures ApplyLines(topo + changes[..i + 1]) == ApplyLine(ApplyLines(topo + changes[..i]), changes[i])
  {
    var lines := topo + changes[..i + 1];
    assert lines[..|lines| - 1] == topo + changes[..i];
  }

  lemma NextChange(topo: seq<Line>, changes: seq<Line>, i: nat, w: nat)
    requires Usable(topo + changes) && AlwaysBounded(topo, changes, w) && i < |changes|
    ensures changes[i].node1 >= 0 && changes[i].node2 >= 0
    ensures ApplyLines(topo + changes[..i + 1]) == ApplyLine(ApplyLines(topo + changes[..i]), changes[i])
    ensures Bounded(ApplyLine(ApplyLines(topo + changes[..i]), changes[i]), w)
  {
    assert (topo + changes)[|topo| + i] == changes[i];
    assert BoundedAfter(topo, changes, i + 1, w);
    LastLine(topo, changes, i);
  }

  /** The cost of an edge; 0 stands for no edge. */
  function CostAt(g: Adjacency, a: int, b: int): int {
    if a in g && b in g[a] then g[a][b] else 0
  }

  lemma ApplyLineAt(g: Adjacency, l: Line, a: int, b: int)
    ensures a in ApplyLine(g, l) <==> a in g || Mentions(l, a)
    ensures CostAt(ApplyLine(g, l), a, b) ==
            if About(l, a, b) then (if l.dist > 0 then l.dist else 0) else CostAt(g, a, b)
  {
  }

  /** The graph depends on the lines only through the nodes mentioned and the last line about each pair:
      no earlier history shows. */
  lemma {:induction false} LastLineWins(lines: seq<Line>, a: int, b: int)
    ensures a in ApplyLines(lines) <==> exists i :: 0 <= i < |lines| && Mentions(lines[i], a)
    ensures CostAt(ApplyLines(lines), a, b) == (if LastCost(lines, a, b) > 0 then LastCost(lines, a, b) else 0)
  {
    if lines != [] {
      var rest, l := lines[..|lines| - 1], lines[|lines| - 1];
      LastLineWins(rest, a, b);
      ApplyLineAt(ApplyLines(rest), l, a, b);
      assert lines == rest + [l];
    }
  }

  lemma {:induction false} LinesAreSound(lines: seq<Line>)
    requires Usable(lines)
    ensures Sound(ApplyLines(lines))
  {
    if lines != [] {
      LinesAreSound(lines[..|lines| - 1]);
      ApplyLineKeepsSound(ApplyLines(lines[..|lines| - 1]), lines[|lines| - 1]);
    }
  }

  /** The two histories name the same nodes and last say the same about the pair {a, b}. */
  ghost predicate SameHistory(x: seq<Line>, y: seq<Line>, a: int, b: int) {
    && ((exists i :: 0 <= i < |x| && Mentions(x[i], a)) <==> (exists i :: 0 <= i < |y| && Mentions(y[i], a)))
    && (LastCost(x, a, b) == LastCost(y, a, b) || (LastCost(x, a, b) <= 0 && LastCost(y, a, b) <= 0))
  }

  lemma SameMap<T>(m: map<int, T>, n: map<int, T>)
    requires forall i :: i in m <==> i in n
    requires forall i :: i in m ==> m[i] == n[i]
    ensures m == n
  {
    var c := map i | i in m :: m[i];
    assert forall i :: i in c <==> i in n;
    assert forall i :: i in n ==> c[i] == n[i];
    assert c == n;
    assert c == m;
  }

  lemma SameCosts(x: seq<Line>, y: seq<Line>, a: int, b: int)
    requires SameHistory(x, y, a, b)
    ensures (a in ApplyLines(x) <==> a in ApplyLines(y)) && CostAt(ApplyLines(x), a, b) == CostAt(ApplyLines(y), a, b)
  {
    LastLineWins(x, a, b);
    LastLineWins(y, a, b);
  }

  /** Histories that agree on the nodes and on every pair's last line leave the same topology. */
  lemma SameTopology(x: seq<Line>, y: seq<Line>)
    requires Usable(x) && Usable(y) && forall a, b {:trigger SameHistory(x, y, a, b)} :: SameHistory(x, y, a, b)
    ensures ApplyLines(x) == ApplyLines(y)
  {
    var g, h := ApplyLines(x), ApplyLines(y);
    LinesAreSound(x);
    LinesAreSound(y);
    forall a ensures a in g <==> a in h {
      assert SameHistory(x, y, a, a);
      SameCosts(x, y, a, a);
    }
    forall a | a in g ensures g[a] == h[a] {
      forall b ensures (b in g[a] <==> b in h[a]) && (b in g[a] ==> g[a][b] == h[a][b]) {
        assert SameHistory(x, y, a, b);
        SameCosts(x, y, a, b);
        assert b in g[a] ==> Edge(g, a, b);
        assert b in h[a] ==> Edge(h, a, b);
      }
      SameMap(g[a], h[a]);
    }
    SameMap(g, h);
  }
}
