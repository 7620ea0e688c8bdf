/** The distance-vector program: routers that exchange their distance tables in rounds. */
module Distvec {
  import opened Topology
  import opened CanonicalTree
  import opened Rounds
  import opened TopologyLines

  /** A sender and a copy of its distances. */
  type Update = (int, map<int, int>)

  function Relax(l: Label, offer: Label): Label {
    if Better(offer, l) then offer else l
  }

  predicate IsOffer(edges: map<int, int>, m: Update, t: int) {
    m.0 in edges && t in m.1 && edges[m.0] != INT_MAX && m.1[t] != INT_MAX
  }

  function OfferOf(edges: map<int, int>, m: Update, t: int): Label
    requires IsOffer(edges, m, t)
  {
    Label(edges[m.0] + m.1[t], m.0)
  }

  /** The message can be worked off: it comes from a neighbour, is about known nodes only,
      and no sum reaches the sentinel. */
  ghost predicate Digestible(edges: map<int, int>, known: set<int>, m: Update) {
    && m.0 in edges && 0 < edges[m.0] < INT_MAX && (forall t :: t in m.1 ==> t in known)
    && (forall t :: t in m.1 ==> 0 <= m.1[t] <= INT_MAX && (m.1[t] < INT_MAX ==> edges[m.0] + m.1[t] < INT_MAX))
  }

  /** A label after the messages were worked off from first to last. */
  function Merge(edges: map<int, int>, msgs: seq<Update>, t: int, l: Label): Label {
    if msgs == [] then l else
      var before := Merge(edges, msgs[..|msgs| - 1], t, l);
      var m := msgs[|msgs| - 1];
      if IsOffer(edges, m, t) then Relax(before, OfferOf(edges, m, t)) else before
  }

  /** The router has worked off msgs and nothing else happened to it. */
  ghost predicate Merged(edges: map<int, int>, before: Router, after: Router, msgs: seq<Update>) {
    && after.dist.Keys == before.dist.Keys
    && (forall t {:trigger t in after.fwd} :: t in after.dist && after.dist[t] < INT_MAX ==> t in after.fwd)
    && (forall t {:trigger Merge(edges, msgs, t, LabelAt(before, t))} ::
          t in after.dist ==> LabelAt(after, t) == Merge(edges, msgs, t, LabelAt(before, t)))
    && (after.updated <==> Differs(before, after))
  }

  /** The order of the messages does not matter: the outcome is the least of the label and all offers. */
  lemma {:induction false} MergeIsLeast(edges: map<int, int>, msgs: seq<Update>, t: int, l: Label)
    ensures var r := Merge(edges, msgs, t, l);
            && !Better(l, r)
            && (forall m :: m in msgs && IsOffer(edges, m, t) ==> !Better(OfferOf(edges, m, t), r))
            && (r == l || exists m :: m in msgs && IsOffer(edges, m, t) && r == OfferOf(edges, m, t))
  {
    if msgs != [] {
      var rest, last := msgs[..|msgs| - 1], msgs[|msgs| - 1];
      assert msgs == rest + [last];
      MergeIsLeast(edges, rest, t, l);
    }
  }

  class Node {
    const id: int
    var neibours: seq<int>
    var edges: map<int, int>
    var forwardingTable: map<int, int>
    var distanceToThatNode: map<int, int>
    var updatesFromNei: seq<Update>
    var beUpdated: bool

    /** The neighbour list holds each key of `edges` once. */
    ghost predicate Linked()
      reads `neibours, `edges
    {
      && (forall i, j :: 0 <= i < j < |neibours| ==> neibours[i] != neibours[j])
      && (forall n :: n in neibours <==> n in edges)
    }

    function LabelAt(t: int): Label
      reads `distanceToThatNode, `forwardingTable
      requires t in distanceToThatNode
    {
      Label(distanceToThatNode[t], if t in forwardingTable then forwardingTable[t] else -1)
    }

    function Value(): Router
      reads `distanceToThatNode, `forwardingTable, `beUpdated
    {
      Router(distanceToThatNode, forwardingTable, beUpdated)
    }

    constructor (id: int)
      ensures this.id == id && Linked() && edges == map[] && updatesFromNei == []
      ensures Value() == Router(map[id := 0], map[id := id], true)
    {
      this.id := id;
      neibours, edges, updatesFromNei := [], map[], [];
      forwardingTable, distanceToThatNode, beUpdated := map[id := id], map[id := 0], true;
    }

    method RemoveNei(neiId: int)
      requires Linked()
      modifies `neibours, `edges
      ensures Linked() && edges == old(edges) - {neiId}
    {
      if neiId in edges {
        var pos := 0;
        while pos < |neibours| && neibours[pos] != neiId
          invariant 0 <= pos <= |neibours| && neiId !in neibours[..pos]
        {
          pos := pos + 1;
        }
        if pos < |neibours| {
          neibours := neibours[..pos] + neibours[pos + 1..];
        }
        edges := edges - {neiId};
      }
    }

    method AddOrUpdateNei(neiId: int, edgeCost: int)
      requires Linked()
      modifies `neibours, `edges, `beUpdated
      ensures Linked() && edges == old(edges)[neiId := edgeCost] && beUpdated
    {
      beUpdated := true;
      if neiId in edges {
        edges := edges[neiId := edgeCost];
      } else {
        neibours := neibours + [neiId];
        edges := edges[neiId := edgeCost];
      }
    }

    method InitialDistanceOfNode(nodeId: int)
      modifies `distanceToThatNode, `beUpdated
      ensures beUpdated && distanceToThatNode == old(distanceToThatNode)[nodeId := INT_MAX]
    {
      beUpdated := true;
      distanceToThatNode := distanceToThatNode[nodeId := INT_MAX];
    }

    /** Only the own distance is known. */
    ghost predicate Forgotten(ids: set<int>)
      reads `distanceToThatNode, `beUpdated
    {
      && distanceToThatNode.Keys == ids
      && (forall j :: j in ids ==> distanceToThatNode[j] == if j == id then 0 else INT_MAX)
      && (beUpdated || |ids| == 1)
    }

    /** Forgets the distances to all other nodes. */
    method ForgetOthers(ids: set<int>)
      requires id in ids && id in distanceToThatNode && distanceToThatNode[id] == 0 && distanceToThatNode.Keys <= ids
      modifies `distanceToThatNode, `beUpdated
      ensures Forgotten(ids)
    {
      var todo := ids;
      while todo != {}
        invariant todo <= ids && ids - todo <= distanceToThatNode.Keys <= ids
        invariant id in distanceToThatNode && distanceToThatNode[id] == 0
        invariant forall j :: j in ids - todo && j != id ==> distanceToThatNode[j] == INT_MAX
        invariant beUpdated || ids - todo <= {id}
        decreases todo
      {
        var j := Pick(todo);
        todo := todo - {j};
        if id != j {
          InitialDistanceOfNode(j);
        }
      }
      assert !beUpdated ==> ids == {id};
    }

    /** Hands every neighbour a copy of the distances, if they changed. */
    method SendUpdate(graph: map<int, Node>, ghost nodes: set<Node>) returns (sent: bool)
      requires Linked() && (forall n :: n in neibours ==> n in graph)
      requires forall i {:trigger graph[i]} :: i in graph ==> graph[i].id == i && graph[i] in nodes
      modifies nodes`updatesFromNei
      ensures sent <==> beUpdated && neibours != []
      ensures forall i {:trigger graph[i]} :: i in graph ==>
                graph[i].updatesFromNei == old(graph[i].updatesFromNei)
                                           + (if beUpdated && i in edges then [(id, distanceToThatNode)] else [])
    {
      if !beUpdated {
        return false;
      }
      var i := 0;
      while i < |neibours|
        invariant 0 <= i <= |neibours|
        invariant forall j :: j in graph ==>
                    graph[j].updatesFromNei == old(graph[j].updatesFromNei)
                                               + (if j in neibours[..i] then [(id, distanceToThatNode)] else [])
      {
        var neiId := neibours[i];
        assert neiId in neibours && neiId !in neibours[..i];
        var nei := graph[neiId];
        assert nei.id == neiId && forall j :: j in graph && j != neiId ==> graph[j] != nei;
        assert neibours[..i + 1] == neibours[..i] + [neiId];
        nei.updatesFromNei := nei.updatesFromNei + [(id, distanceToThatNode)];
        i := i + 1;
      }
      assert neibours[..i] == neibours;
      return i != 0;
    }

    ghost predicate FiniteHasHop()
      reads `distanceToThatNode, `forwardingTable
    {
      forall t :: t in distanceToThatNode && distanceToThatNode[t] < INT_MAX ==> t in forwardingTable
    }

    /** No message waits, the node knows itself at distance 0, and finite distances have a hop. */
    ghost predicate Owned()
      reads `updatesFromNei, `distanceToThatNode, `forwardingTable
    {
      && updatesFromNei == [] && FiniteHasHop()
      && id in distanceToThatNode && distanceToThatNode[id] == 0
      && id in forwardingTable && forwardingTable[id] == id
    }

    ghost predicate Capped()
      reads `distanceToThatNode
    {
      forall t :: t in distanceToThatNode ==> distanceToThatNode[t] <= INT_MAX
    }

    /** Compares one entry of a message with the own table. */
    method RelaxEntry(m: Update, dest: int) returns (changed: bool)
      requires Digestible(edges, distanceToThatNode.Keys, m) && dest in m.1 && FiniteHasHop() && Capped()
      modifies `distanceToThatNode, `forwardingTable
      ensures distanceToThatNode.Keys == old(distanceToThatNode.Keys) && FiniteHasHop() && Capped()
      ensures LabelAt(dest) == (if IsOffer(edges, m, dest) then Relax(old(LabelAt(dest)), OfferOf(edges, m, dest))
                                else old(LabelAt(dest)))
      ensures forall t :: t in distanceToThatNode && t != dest ==> LabelAt(t) == old(LabelAt(t))
      ensures changed <==> LabelAt(dest) != old(LabelAt(dest))
    {
      changed := false;
      var neiEdge := edges[m.0];
      var givenDist := m.1[dest];
      if neiEdge == INT_MAX || givenDist == INT_MAX {
        return;
      }
      var newDist := neiEdge + givenDist;
      if distanceToThatNode[dest] > newDist {
        distanceToThatNode := distanceToThatNode[dest := newDist];
        forwardingTable := forwardingTable[dest := m.0];
        changed := true;
      } else if distanceToThatNode[dest] == newDist {
        if forwardingTable[dest] > m.0 {
          forwardingTable := forwardingTable[dest := m.0];
          changed := true;
        }
      }
    }

    /** Works off one message. */
    method Digest(m: Update) returns (isChanged: bool)
      requires Digestible(edges, distanceToThatNode.Keys, m) && FiniteHasHop() && Capped()
      modifies `distanceToThatNode, `forwardingTable
      ensures distanceToThatNode.Keys == old(distanceToThatNode.Keys) && FiniteHasHop() && Capped()
      ensures forall t :: t in distanceToThatNode ==>
                LabelAt(t) == (if IsOffer(edges, m, t) then Relax(old(LabelAt(t)), OfferOf(edges, m, t))
                               else old(LabelAt(t)))
      ensures isChanged <==> exists t :: t in distanceToThatNode && LabelAt(t) != old(LabelAt(t))
    {
      isChanged := false;
      var todo := m.1.Keys;
      while todo != {}
        invariant todo <= m.1.Keys
        invariant distanceToThatNode.Keys == old(distanceToThatNode.Keys) && FiniteHasHop() && Capped()
        invariant forall t :: t in distanceToThatNode ==>
                    LabelAt(t) == (if t !in todo && IsOffer(edges, m, t)
                                      then Relax(old(LabelAt(t)), OfferOf(edges, m, t)) else old(LabelAt(t)))
        invariant isChanged <==> exists t :: t in distanceToThatNode && LabelAt(t) != old(LabelAt(t))
        decreases todo
      {
        var dest := Pick(todo);
        todo := todo - {dest};
        var changed := RelaxEntry(m, dest);
        if changed { isChanged := true; }
      }
    }

    /** Works off all messages received; reports whether any label changed. */
    method UpdateDistanceAndForwardingTable() returns (isChanged: bool)
      requires forall m :: m in updatesFromNei ==> Digestible(edges, distanceToThatNode.Keys, m)
      requires FiniteHasHop() && Capped()
      modifies `distanceToThatNode, `forwardingTable, `updatesFromNei, `beUpdated
      ensures Merged(edges, old(Value()), Value(), old(updatesFromNei))
      ensures updatesFromNei == [] && beUpdated == isChanged
    {
      isChanged := false;
      var i := 0;
      while i < |updatesFromNei|
        invariant 0 <= i <= |updatesFromNei| && updatesFromNei == old(updatesFromNei)
        invariant distanceToThatNode.Keys == old(distanceToThatNode.Keys) && FiniteHasHop() && Capped()
        invariant forall t :: t in distanceToThatNode ==>
                    LabelAt(t) == Merge(edges, updatesFromNei[..i], t, old(LabelAt(t)))
        invariant isChanged <==> exists t :: t in distanceToThatNode && LabelAt(t) != old(LabelAt(t))
      {
        label L:
        var m := updatesFromNei[i];
        assert updatesFromNei[..i + 1] == updatesFromNei[..i] + [m];
        assert Digestible(edges, old(distanceToThatNode.Keys), m);
        var changed := Digest(m);
        forall t | t in distanceToThatNode
          ensures LabelAt(t) == Merge(edges, updatesFromNei[..i + 1], t, old(LabelAt(t)))
          ensures LabelAt(t) != old@L(LabelAt(t)) ==> LabelAt(t) != old(LabelAt(t))
          ensures old@L(LabelAt(t)) != old(LabelAt(t)) ==> LabelAt(t) != old(LabelAt(t))
        {
          MergeIsLeast(edges, updatesFromNei[..i], t, old(LabelAt(t)));
        }
        isChanged := isChanged || changed;
        i := i + 1;
      }
      assert updatesFromNei[..i] == updatesFromNei;
      updatesFromNei := [];
      beUpdated := isChanged;
      forall t | t in distanceToThatNode
        ensures Rounds.LabelAt(Value(), t) == LabelAt(t) && Rounds.LabelAt(old(Value()), t) == old(LabelAt(t))
      {
      }
    }
  }

  // ---------- Messages of one round ----------

  /** msgs is what router u holds once the changed routers outside `todo` have sent. */
  ghost predicate Delivered(g: Adjacency, a: Network, todo: set<int>, u: int, msgs: seq<Update>) {
    && (forall m :: m in msgs ==> m.0 in a && a[m.0].updated && m.0 in g && u in g[m.0] && m.1 == a[m.0].dist)
    && (forall v {:trigger (v, a[v].dist) in msgs} ::
          v in a && a[v].updated && v in g && v !in todo && u in g[v] ==> (v, a[v].dist) in msgs)
  }

  /** Router u's mail in this round. */
  ghost predicate Mailed(g: Adjacency, a: Network, mail: map<int, seq<Update>>, u: int) {
    u in mail && Delivered(g, a, {}, u, mail[u])
  }

  /** Router u has worked off its mail. */
  ghost predicate Handled(g: Adjacency, a: Network, b: Network, mail: map<int, seq<Update>>, u: int) {
    u in g && u in a && u in b && u in mail && Merged(g[u], a[u], b[u], mail[u])
  }

  ghost predicate AllMailed(g: Adjacency, a: Network, mail: map<int, seq<Update>>) {
    forall u {:trigger Mailed(g, a, mail, u)} :: u in g ==> Mailed(g, a, mail, u)
  }

  ghost predicate AllHandled(g: Adjacency, a: Network, b: Network, mail: map<int, seq<Update>>) {
    forall u {:trigger Handled(g, a, b, mail, u)} :: u in g ==> Handled(g, a, b, mail, u)
  }

  ghost predicate InRange(g: Adjacency, a: Network)
    requires Shaped(g, a)
  {
    && (forall u, v {:trigger Edge(g, u, v)} :: u in g && v in g[u] ==> g[u][v] < INT_MAX)
    && (forall u, t {:trigger DistAt(g, a, u, t)} :: u in g && t in g ==> 0 <= DistAt(g, a, u, t) <= INT_MAX)
  }

  /** A delivered message makes the same offer as its sender. */
  lemma MessageIsOffer(g: Adjacency, a: Network, u: int, t: int, msgs: seq<Update>, m: Update)
    requires Sound(g) && Shaped(g, a) && u in g && t in g && InRange(g, a)
    requires Delivered(g, a, {}, u, msgs) && m in msgs && IsOffer(g[u], m, t)
    ensures Offers(g, a, Changed(a), u, m.0, t) && OfferOf(g[u], m, t) == Offer(g, a, u, m.0, t)
  {
    assert DistAt(g, a, m.0, t) <= INT_MAX;
  }

  lemma OfferIsMessage(g: Adjacency, a: Network, u: int, t: int, msgs: seq<Update>, v: int)
    requires Sound(g) && Shaped(g, a) && u in g && t in g && InRange(g, a)
    requires Delivered(g, a, {}, u, msgs) && Offers(g, a, Changed(a), u, v, t)
    ensures var m := (v, a[v].dist); m in msgs && IsOffer(g[u], m, t) && OfferOf(g[u], m, t) == Offer(g, a, u, v, t)
  {
    assert Edge(g, u, v) && Row(g, a, v);
  }

  /** Merging what was delivered is choosing the least of what was offered. */
  lemma MergeIsLeastOffer(g: Adjacency, a: Network, u: int, t: int, msgs: seq<Update>)
    requires Sound(g) && Shaped(g, a) && u in g && t in g && InRange(g, a)
    requires Delivered(g, a, {}, u, msgs)
    ensures Least(g, a, Changed(a), u, t, Merge(g[u], msgs, t, At(g, a, u, t)))
  {
    var l := At(g, a, u, t);
    var r := Merge(g[u], msgs, t, l);
    MergeIsLeast(g[u], msgs, t, l);
    if m :| m in msgs && IsOffer(g[u], m, t) && r == OfferOf(g[u], m, t) {
      MessageIsOffer(g, a, u, t, msgs, m);
    }
    forall v | Offers(g, a, Changed(a), u, v, t) ensures !Better(Offer(g, a, u, v, t), r) {
      OfferIsMessage(g, a, u, t, msgs, v);
    }
  }

  /** All distances unknown except each router's own. */
  ghost predicate Reset(g: Adjacency, a: Network) {
    && Shaped(g, a)
    && (forall u, t :: u in g && t in g ==> DistAt(g, a, u, t) == if u == t then 0 else INT_MAX)
    && (forall u {:trigger a[u]} :: u in g ==> u in a[u].fwd && a[u].fwd[u] == u)
    && (|g| > 1 ==> forall u {:trigger a[u]} :: u in g ==> a[u].updated)
  }

  lemma ResetIsBest(g: Adjacency, a: Network)
    requires Sound(g) && Reset(g, a)
    ensures BestAfter(g, 0, a)
  {
    forall u, t | u in g && t in g ensures BestWithin(g, 0, u, t, At(g, a, u, t)) {
      assert DistAt(g, a, u, t) == if u == t then 0 else INT_MAX;
      if u == t { assert Joins(g, u, t, [u]) && Key(g, [u]) == Label(0, u); }
      forall p | Joins(g, u, t, p) && |p| - 1 <= 0 ensures p == [u] && u == t { }
    }
  }

  lemma ResetIsCoherent(g: Adjacency, a: Network)
    requires Sound(g) && Reset(g, a)
    ensures Coherent(g, a) && Descending(g, a)
  {
    forall u, v, t | u in g && t in g && v !in Changed(a) && Offers(g, a, g.Keys, u, v, t)
      ensures !Better(Offer(g, a, u, v, t), At(g, a, u, t))
    {
      assert Edge(g, u, v) && |g.Keys| == |g| <= 1;
      if u != v { SimpleFits([u, v], g.Keys); }
      if u != t { SimpleFits([u, t], g.Keys); }
      assert DistAt(g, a, u, t) == 0;
    }
  }

  ghost predicate Isolated(g: Adjacency, v: int)
    requires v in g
  {
    forall n :: n !in g[v]
  }

  /** With no changed router that has a neighbour, another round would change nothing. */
  lemma NoSenderIsQuiet(g: Adjacency, a: Network)
    requires Sound(g) && Coherent(g, a) && forall v :: v in g && v in Changed(a) ==> Isolated(g, v)
    ensures Round(g, a, a, g.Keys)
  {
    forall u, t | u in g && t in g ensures Least(g, a, g.Keys, u, t, At(g, a, u, t)) {
      forall v | Offers(g, a, g.Keys, u, v, t) ensures !Better(Offer(g, a, u, v, t), At(g, a, u, t)) {
        assert Edge(g, u, v);
      }
    }
  }

  lemma NoChangeIsQuiet(g: Adjacency, a: Network, b: Network)
    requires Round(g, a, b, g.Keys) && SameLabels(g, a, b)
    ensures Round(g, b, b, g.Keys)
  {
    forall u, t | u in g && t in g ensures Least(g, b, g.Keys, u, t, At(g, b, u, t)) {
      assert Least(g, a, g.Keys, u, t, At(g, b, u, t));
      forall v | Offers(g, b, g.Keys, u, v, t) ensures !Better(Offer(g, b, u, v, t), At(g, b, u, t)) {
        assert At(g, b, v, t) == At(g, a, v, t);
        assert Offers(g, a, g.Keys, u, v, t) && Offer(g, b, u, v, t) == Offer(g, a, u, v, t);
      }
    }
  }

  lemma StateInRange(g: Adjacency, w: nat, k: nat, a: Network)
    requires Sound(g) && Bounded(g, w) && BestAfter(g, k, a)
    ensures InRange(g, a)
  {
    forall u, v | u in g && v in g[u] ensures g[u][v] < INT_MAX {
      assert g[u][v] <= w;
      LessIsLess(1, |g|, w);
    }
    forall u, t | u in g && t in g ensures 0 <= DistAt(g, a, u, t) <= INT_MAX {
      assert BestWithin(g, k, u, t, At(g, a, u, t));
      if p :| Joins(g, u, t, p) && Key(g, p) == At(g, a, u, t) { CostGrows(g, p); }
    }
  }

  /** No sum made out of a delivered message reaches the sentinel. */
  lemma DeliveredFits(g: Adjacency, w: nat, k: nat, a: Network, u: int, msgs: seq<Update>, m: Update)
    requires Sound(g) && Bounded(g, w) && k < |g| && BestAfter(g, k, a) && u in g
    requires Delivered(g, a, {}, u, msgs) && m in msgs
    ensures Digestible(g[u], g.Keys, m)
  {
    StateInRange(g, w, k, a);
    assert Edge(g, m.0, u) && Edge(g, u, m.0) && Row(g, a, m.0);
    forall t | t in m.1 ensures 0 <= m.1[t] <= INT_MAX && (m.1[t] < INT_MAX ==> g[u][m.0] + m.1[t] < INT_MAX) {
      assert 0 <= DistAt(g, a, m.0, t) <= INT_MAX;
      if m.1[t] < INT_MAX { var _ := OfferIsWalk(g, w, k, a, u, m.0, t); }
    }
  }

  lemma DeliveredStep(g: Adjacency, a: Network, todo: set<int>, i: int, u: int, msgs: seq<Update>)
    requires i in g && i in a && i in todo && Delivered(g, a, todo, u, msgs)
    ensures Delivered(g, a, todo - {i}, u, msgs + (if a[i].updated && u in g[i] then [(i, a[i].dist)] else []))
  {
  }

  lemma MergedIsRound(g: Adjacency, a: Network, b: Network, mail: map<int, seq<Update>>)
    requires Sound(g) && Shaped(g, a) && Shaped(g, b) && InRange(g, a)
    requires AllMailed(g, a, mail) && AllHandled(g, a, b, mail)
    ensures Round(g, a, b, Changed(a)) && Flagged(g, a, b)
  {
    forall u, t | u in g && t in g ensures Least(g, a, Changed(a), u, t, At(g, b, u, t)) {
      assert Mailed(g, a, mail, u) && Handled(g, a, b, mail, u) && Row(g, a, u) && Row(g, b, u);
      MergeIsLeastOffer(g, a, u, t, mail[u]);
    }
    forall u | u in g ensures b[u].updated <==> Differs(a[u], b[u]) {
      assert Handled(g, a, b, mail, u);
    }
  }

  /** No offer beats a router's distance 0 to itself. */
  lemma OwnLabelStays(g: Adjacency, a: Network, u: int, r: Router, msgs: seq<Update>)
    requires Sound(g) && Shaped(g, a) && InRange(g, a) && u in g && At(g, a, u, u) == Label(0, u)
    requires Delivered(g, a, {}, u, msgs) && Merged(g[u], a[u], r, msgs)
    ensures u in r.dist && r.dist[u] == 0 && u in r.fwd && r.fwd[u] == u
  {
    assert Row(g, a, u);
    var l := LabelAt(r, u);
    MergeIsLeast(g[u], msgs, u, Label(0, u));
    forall m | m in msgs && IsOffer(g[u], m, u) ensures OfferOf(g[u], m, u).dist > 0 {
      MessageIsOffer(g, a, u, u, msgs, m);
      assert Edge(g, u, m.0) && 0 <= DistAt(g, a, m.0, u);
    }
  }

  /** Having worked off some of its messages, a router knows an old label or an offer. */
  lemma PrefixIsTaken(g: Adjacency, a: Network, u: int, t: int, msgs: seq<Update>, i: nat)
    requires Sound(g) && Shaped(g, a) && InRange(g, a) && u in g && t in g
    requires Delivered(g, a, {}, u, msgs) && i <= |msgs|
    ensures var l := Merge(g[u], msgs[..i], t, At(g, a, u, t));
            Taken(g, a, g.Keys, u, t, l) && l.dist <= DistAt(g, a, u, t)
  {
    var l0 := At(g, a, u, t);
    var l := Merge(g[u], msgs[..i], t, l0);
    MergeIsLeast(g[u], msgs[..i], t, l0);
    if m :| m in msgs[..i] && IsOffer(g[u], m, t) && l == OfferOf(g[u], m, t) {
      assert m in msgs;
      MessageIsOffer(g, a, u, t, msgs, m);
      assert Offers(g, a, g.Keys, u, m.0, t);
    }
  }

  /** At any point of a round, however far each router has got with each destination, every finite entry
      points at a current neighbour that is nearer, so following entries reaches the destination. */
  lemma MidRoundIsLoopFree(g: Adjacency, a: Network, c: Network, mail: map<int, seq<Update>>, at: map<(int, int), nat>)
    requires Sound(g) && Shaped(g, a) && Shaped(g, c) && InRange(g, a) && Descending(g, a)
    requires AllMailed(g, a, mail)
    requires forall u, t :: u in g && t in g ==>
               && u in mail && (u, t) in at && at[(u, t)] <= |mail[u]|
               && At(g, c, u, t) == Merge(g[u], mail[u][..at[(u, t)]], t, At(g, a, u, t))
               && (DistAt(g, c, u, t) < INT_MAX ==> t in c[u].fwd)
    ensures Descending(g, c)
  {
    forall u, t | u in g && t in g ensures Midway(g, a, c, u, t) {
      assert DistAt(g, c, u, t) < INT_MAX ==> t in c[u].fwd;
      assert Mailed(g, a, mail, u);
      PrefixIsTaken(g, a, u, t, mail[u], at[(u, t)]);
    }
    MidRoundDescends(g, a, c);
  }

  /** Own labels in place, and a hop for every finite distance. */
  ghost predicate OwnLabels(g: Adjacency, a: Network) {
    && Shaped(g, a)
    && (forall u {:trigger At(g, a, u, u)} :: u in g ==> At(g, a, u, u) == Label(0, u) && u in a[u].fwd)
    && (forall u, t {:trigger HasHop(g, a, u, t)} :: u in g && t in g ==> HasHop(g, a, u, t))
  }

  lemma OwnLabelsStay(g: Adjacency, a: Network, b: Network, mail: map<int, seq<Update>>)
    requires Sound(g) && OwnLabels(g, a) && InRange(g, a) && Shaped(g, b)
    requires AllMailed(g, a, mail) && AllHandled(g, a, b, mail)
    ensures OwnLabels(g, b)
  {
    forall u | u in g ensures At(g, b, u, u) == Label(0, u) && u in b[u].fwd {
      assert At(g, a, u, u) == Label(0, u) && Mailed(g, a, mail, u) && Handled(g, a, b, mail, u);
      OwnLabelStays(g, a, u, b[u], mail[u]);
    }
    forall u, t | u in g && t in g ensures HasHop(g, b, u, t) {
      assert Handled(g, a, b, mail, u) && Row(g, b, u);
    }
  }

  /** What holds of the routers after k rounds. */
  ghost predicate RoundsDone(g: Adjacency, k: nat, a: Network) {
    BestAfter(g, k, a) && Coherent(g, a) && Descending(g, a)
  }

  /** What the rounds loop relies on, on values: g has the topology, a the tables after k rounds. */
  ghost predicate LoopState(g: Adjacency, w: nat, k: nat, a: Network) {
    Sound(g) && Bounded(g, w) && (k < |g| || |g| == 0) && RoundsDone(g, k, a) && OwnLabels(g, a)
  }

  /** In every round of the program's loop, at every point in between. */
  lemma LoopIsLoopFree(
      g: Adjacency, w: nat, k: nat, a: Network, c: Network, mail: map<int, seq<Update>>, at: map<(int, int), nat>)
    requires LoopState(g, w, k, a) && Shaped(g, c) && AllMailed(g, a, mail)
    requires forall u, t :: u in g && t in g ==>
               && u in mail && (u, t) in at && at[(u, t)] <= |mail[u]|
               && At(g, c, u, t) == Merge(g[u], mail[u][..at[(u, t)]], t, At(g, a, u, t))
               && (DistAt(g, c, u, t) < INT_MAX ==> t in c[u].fwd)
    ensures Descending(g, c)
  {
    if |g| > 0 {
      StateInRange(g, w, k, a);
      MidRoundIsLoopFree(g, a, c, mail, at);
    }
  }

  lemma MergedIsShaped(g: Adjacency, a: Network, b: Network, mail: map<int, seq<Update>>)
    requires Shaped(g, a) && b.Keys == g.Keys
    requires AllHandled(g, a, b, mail)
    ensures Shaped(g, b)
  {
    forall u | u in g ensures Row(g, b, u) {
      assert Handled(g, a, b, mail, u) && Row(g, a, u);
    }
  }

  /** A whole round on values. */
  lemma UpdateIsRound(g: Adjacency, w: nat, k: nat, a: Network, b: Network, mail: map<int, seq<Update>>)
    requires LoopState(g, w, k, a) && k < |g| && Shaped(g, b)
    requires AllMailed(g, a, mail) && AllHandled(g, a, b, mail)
    ensures OwnLabels(g, b) && Rounds.Round(g, a, b, Changed(a)) && Flagged(g, a, b)
  {
    StateInRange(g, w, k, a);
    OwnLabelsStay(g, a, b, mail);
    MergedIsRound(g, a, b, mail);
  }

  /** One more round: it keeps all that, the one numbered |g| is quiet, and after a quiet one all is known. */
  lemma RoundStep(g: Adjacency, w: nat, k: nat, a: Network, b: Network)
    requires Sound(g) && Bounded(g, w) && k < |g| && RoundsDone(g, k, a)
    requires Round(g, a, b, Changed(a)) && Flagged(g, a, b)
    requires OwnLabels(g, b)
    ensures RoundsDone(g, k + 1, b)
    ensures k == |g| - 1 ==> Quiet(b)
    ensures Quiet(b) ==> AllBest(g, b)
  {
    SendingOnlyChangesSuffices(g, a, b);
    RoundKeepsCoherent(g, a, b);
    RoundAdvances(g, w, k, a, b);
    RoundDescends(g, a, b);
    QuietMeansSame(g, a, b);
    if k == |g| - 1 {
      LateRoundIsQuiet(g, w, k, a, b);
      EnoughRounds(g, k + 1, b);
    } else if Quiet(b) {
      NoChangeIsQuiet(g, a, b);
      QuietIsFinal(g, w, k + 1, b);
    }
  }

  /** ... after which all is known, or the loop can go on. */
  lemma RoundOnValues(g: Adjacency, w: nat, k: nat, a: Network, b: Network, mail: map<int, seq<Update>>)
    requires LoopState(g, w, k, a) && |g| > 0 && b.Keys == g.Keys
    requires AllMailed(g, a, mail) && AllHandled(g, a, b, mail)
    ensures OwnLabels(g, b) && (if Quiet(b) then AllBest(g, b) else LoopState(g, w, k + 1, b))
  {
    MergedIsShaped(g, a, b, mail);
    UpdateIsRound(g, w, k, a, b, mail);
    RoundStep(g, w, k, a, b);
  }

  /** A state the loop can go on from, with the number of rounds done. */
  datatype Progress<Topo, Net> = Progress(g: Topo, w: nat, k: nat, a: Net)

  type Going = p: Progress<Adjacency, Network> | LoopState(p.g, p.w, p.k, p.a) witness Progress(map[], 0, 0, map[])

  lemma StartOnValues(g: Adjacency, w: nat, a: Network)
    requires Sound(g) && Bounded(g, w) && Reset(g, a)
    ensures LoopState(g, w, 0, a)
  {
    ResetIsBest(g, a);
    ResetIsCoherent(g, a);
    forall u | u in g ensures At(g, a, u, u) == Label(0, u) && u in a[u].fwd {
      assert DistAt(g, a, u, u) == 0;
    }
    forall u, t | u in g && t in g ensures HasHop(g, a, u, t) {
      assert DistAt(g, a, u, t) == if u == t then 0 else INT_MAX;
    }
  }

  lemma HasKey(g: Adjacency, i: int)
    requires i in g
    ensures |g| > 0
  {
    assert i in g.Keys && |g.Keys| == |g|;
  }

  lemma SomeMember(msgs: seq<Update>)
    requires msgs != []
    ensures exists m :: m in msgs
  {
    assert msgs[0] in msgs;
  }

  /** No changed router has anybody to send to. */
  ghost predicate NoSender(g: Adjacency, a: Network) {
    forall v {:trigger Isolated(g, v)} :: v in g && v in a && a[v].updated ==> Isolated(g, v)
  }

  lemma NoSenderIsFinal(g: Adjacency, w: nat, k: nat, a: Network)
    requires Sound(g) && Bounded(g, w) && (k < |g| || |g| == 0) && RoundsDone(g, k, a)
    requires NoSender(g, a)
    ensures AllBest(g, a)
  {
    if |g| > 0 {
      NoSenderIsQuiet(g, a);
      QuietIsFinal(g, w, k, a);
    } else {
      assert g == map[];
    }
  }

  lemma HeadMoves<T>(done: seq<T>, rest: seq<T>)
    requires rest != []
    ensures done + [rest[0]] + rest[1..] == done + rest
  {
  }

  class DistanceVector {
    var graph: map<int, Node>
    ghost var nodes: set<Node>

    /** Every node is filed under its id, and its neighbour list matches its edges. */
    ghost predicate Filed()
      reads this, nodes`edges, nodes`neibours
    {
      forall i {:trigger graph[i]} :: i in graph ==> graph[i] in nodes && graph[i].id == i && graph[i].Linked()
    }

    ghost function Weights(): Adjacency
      requires Filed()
      reads this, nodes`edges, nodes`neibours
    {
      map i | i in graph :: graph[i].edges
    }

    ghost function View(): Network
      requires Filed()
      reads this, nodes`edges, nodes`neibours, nodes`distanceToThatNode, nodes`forwardingTable, nodes`beUpdated
    {
      map i | i in graph :: graph[i].Value()
    }

    /** The nodes have the edges in g and the tables in a. */
    ghost predicate Shows(g: Adjacency, a: Network)
      reads this, nodes`edges, nodes`neibours, nodes`distanceToThatNode, nodes`forwardingTable, nodes`beUpdated
    {
      && (forall i :: i in graph <==> i in g) && (forall i :: i in graph <==> i in a)
      && (forall i {:trigger graph[i]} :: i in graph ==>
            && graph[i] in nodes && graph[i].id == i && graph[i].Linked()
            && graph[i].edges == g[i] && graph[i].Value() == a[i])
    }

    /** The table of router i is about nothing outside the graph. */
    ghost predicate OwnTable(i: int)
      reads this, nodes`updatesFromNei, nodes`distanceToThatNode, nodes`forwardingTable
    {
      i in graph && graph[i] in nodes && graph[i].Owned() && graph[i].distanceToThatNode.Keys <= graph.Keys
    }

    ghost predicate Tabled()
      reads this, nodes`updatesFromNei, nodes`distanceToThatNode, nodes`forwardingTable
    {
      forall i {:trigger OwnTable(i)} :: i in graph ==> OwnTable(i)
    }

    /** ... and about everything inside. */
    ghost predicate FullTable(i: int)
      reads this, nodes`distanceToThatNode
    {
      i in graph && graph[i] in nodes && graph[i].distanceToThatNode.Keys == graph.Keys
    }

    ghost predicate Complete()
      reads this, nodes`distanceToThatNode
    {
      forall i {:trigger FullTable(i)} :: i in graph ==> FullTable(i)
    }

    /** What holds between calls. */
    ghost predicate Valid()
      reads this, nodes
    {
      Filed() && Tabled() && Complete() && Sound(Weights())
    }

    /** Router i knows its own distance only. */
    ghost predicate Blank(i: int)
      reads this, nodes`distanceToThatNode, nodes`beUpdated
    {
      i in graph && graph[i] in nodes && graph[i].Forgotten(graph.Keys)
    }

    ghost predicate AllBlank()
      reads this, nodes`distanceToThatNode, nodes`beUpdated
    {
      forall i {:trigger Blank(i)} :: i in graph ==> Blank(i)
    }

    constructor ()
      ensures Valid() && graph == map[] && nodes == {}
    {
      graph, nodes := map[], {};
    }

    lemma EdgesAre(g: Adjacency)
      requires Filed() && graph.Keys == g.Keys && forall i {:trigger graph[i]} :: i in graph ==> graph[i].edges == g[i]
      ensures Weights() == g
    {
      assert forall i :: i in Weights() <==> i in g;
      assert forall i :: i in g ==> Weights()[i] == g[i];
    }

    method AddNode(id: int)
      requires Filed() && Tabled() && id !in graph
      modifies this
      ensures id in graph && fresh(graph[id]) && graph == old(graph)[id := graph[id]]
      ensures nodes == old(nodes) + {graph[id]}
      ensures Filed() && Tabled() && Weights() == old(Weights())[id := map[]]
    {
      var newNode := new Node(id);
      graph, nodes := graph[id := newNode], nodes + {newNode};
      EdgesAre(old(Weights())[id := map[]]);
      forall i | i in graph ensures OwnTable(i) {
        assert i == id || old(OwnTable(i));
      }
    }

    method UpdateEdge(from: int, to: int, dist: int)
      requires Filed() && Tabled() && from in graph
      modifies nodes`edges, nodes`neibours, nodes`beUpdated
      ensures Filed() && Tabled() && Weights() == WithEdge(old(Weights()), from, to, dist)
    {
      ghost var before := Weights();
      assert forall i :: i in graph && i != from ==> graph[i] != graph[from];
      if dist > 0 {
        graph[from].AddOrUpdateNei(to, dist);
      } else {
        graph[from].RemoveNei(to);
      }
      EdgesAre(WithEdge(before, from, to, dist));
    }

    /** One direction of an edge, at the node where it starts; the node is created when it is new. */
    method SetEdge(from: int, to: int, dist: int)
      requires Filed() && Tabled()
      modifies this, nodes`edges, nodes`neibours, nodes`beUpdated
      ensures Filed() && Tabled() && Weights() == WithEdge(old(Weights()), from, to, dist)
      ensures old(nodes) <= nodes && fresh(nodes - old(nodes))
    {
      if from in graph {
        UpdateEdge(from, to, dist);
      } else {
        WithEdgeOnNewNode(Weights(), from, to, dist);
        AddNode(from);
        if dist > 0 {
          UpdateEdge(from, to, dist);
        }
      }
    }

    method ForgetAt(i: int)
      requires Filed() && Tabled() && i in graph
      modifies nodes`distanceToThatNode, nodes`beUpdated
      ensures Filed() && Tabled() && Blank(i)
      ensures forall j {:trigger Blank(j)} :: old(Blank(j)) ==> Blank(j)
    {
      assert OwnTable(i);
      graph[i].ForgetOthers(graph.Keys);
      forall j | j in graph ensures OwnTable(j) && (old(Blank(j)) ==> Blank(j)) {
        assert old(OwnTable(j)) && (j != i ==> graph[j] != graph[i]);
      }
    }

    method InitialAllDist()
      requires Filed() && Tabled()
      modifies nodes`distanceToThatNode, nodes`beUpdated
      ensures Filed() && Tabled() && Weights() == old(Weights()) && AllBlank()
    {
      var todo := graph.Keys;
      while todo != {}
        invariant todo <= graph.Keys && Filed() && Tabled()
        invariant forall i {:trigger Blank(i)} :: i in graph && i !in todo ==> Blank(i)
        decreases todo
      {
        var i := Pick(todo);
        todo := todo - {i};
        ForgetAt(i);
      }
    }

    method SetBothEdges(l: Line)
      requires Filed() && Tabled()
      modifies this, nodes`edges, nodes`neibours, nodes`beUpdated
      ensures Filed() && Tabled() && Weights() == ApplyLine(old(Weights()), l)
      ensures old(nodes) <= nodes && fresh(nodes - old(nodes))
    {
      SetEdge(l.node1, l.node2, l.dist);
      SetEdge(l.node2, l.node1, l.dist);
    }

    lemma ShapedView()
      requires Filed() && Complete()
      ensures Shaped(Weights(), View())
      ensures forall i {:trigger graph[i]} :: i in graph ==>
                i in View() && View()[i] == graph[i].Value() && Weights()[i] == graph[i].edges
    {
      var g, a := Weights(), View();
      assert g.Keys == graph.Keys && a.Keys == graph.Keys;
      forall i | i in g ensures Row(g, a, i) {
        assert FullTable(i);
      }
    }

    lemma ForgottenIsReset()
      requires Valid() && AllBlank()
      ensures Reset(Weights(), View())
    {
      var g, a := Weights(), View();
      ShapedView();
      assert |g.Keys| == |g| && g.Keys == graph.Keys;
      forall u | u in g
        ensures u in a[u].fwd && a[u].fwd[u] == u && (|g| > 1 ==> a[u].updated)
        ensures forall t :: t in g ==> DistAt(g, a, u, t) == if u == t then 0 else INT_MAX
      {
        assert Blank(u) && OwnTable(u) && Row(g, a, u);
      }
    }

    lemma ForgottenIsValid()
      requires Filed() && Tabled() && Sound(Weights()) && AllBlank()
      ensures Valid()
    {
      forall i | i in graph ensures FullTable(i) {
        assert Blank(i);
      }
    }

    /** Applies one topology line and forgets all distances. */
    method BuildGraph(l: Line)
      requires Valid() && l.node1 >= 0 && l.node2 >= 0
      modifies this, nodes
      ensures Valid() && fresh(nodes - old(nodes))
      ensures Weights() == ApplyLine(old(Weights()), l)
      ensures Reset(Weights(), View())
    {
      ApplyLineKeepsSound(Weights(), l);
      SetBothEdges(l);
      InitialAllDist();
      ForgottenIsValid();
      ForgottenIsReset();
    }

    /** Everybody holds what the changed routers outside `todo` sent in state a. */
    ghost predicate AllDelivered(g: Adjacency, a: Network, todo: set<int>)
      reads this, nodes`updatesFromNei
    {
      && (forall u {:trigger graph[u]} :: u in graph ==> graph[u] in nodes)
      && (forall u {:trigger Delivered(g, a, todo, u, graph[u].updatesFromNei)} ::
            u in graph ==> Delivered(g, a, todo, u, graph[u].updatesFromNei))
    }

    /** One router's turn to send. */
    method SendOne(i: int, ghost g: Adjacency, ghost a: Network, ghost todo: set<int>) returns (sent: bool)
      requires i in graph && i in todo && i in g && i in a && graph[i] in nodes && graph[i].Linked()
      requires g[i] == graph[i].edges && a[i] == graph[i].Value() && forall n :: n in g[i] ==> n in graph
      requires forall u {:trigger graph[u]} :: u in graph ==> graph[u].id == u
      requires AllDelivered(g, a, todo)
      modifies nodes`updatesFromNei
      ensures AllDelivered(g, a, todo - {i})
      ensures sent <==> a[i].updated && !Isolated(g, i)
    {
      assert graph[i].neibours != [] ==> graph[i].neibours[0] in graph[i].neibours;
      sent := graph[i].SendUpdate(graph, nodes);
      forall u | u in graph ensures Delivered(g, a, todo - {i}, u, graph[u].updatesFromNei) {
        assert old(Delivered(g, a, todo, u, graph[u].updatesFromNei));
        DeliveredStep(g, a, todo, i, u, old(graph[u].updatesFromNei));
      }
    }

    /** Every changed router sends its distances to its neighbours. */
    method SendAll(ghost g: Adjacency, ghost a: Network) returns (count: nat)
      requires Shows(g, a) && Sound(g) && AllDelivered(g, a, graph.Keys)
      modifies nodes`updatesFromNei
      ensures AllDelivered(g, a, {}) && (count > 0 ==> |g| > 0)
      ensures count == 0 <==> NoSender(g, a)
    {
      count := 0;
      var todo := graph.Keys;
      while todo != {}
        invariant todo <= graph.Keys && AllDelivered(g, a, todo)
        invariant count == 0 <==>
                    forall v {:trigger Isolated(g, v)} :: v in g && v !in todo && a[v].updated ==> Isolated(g, v)
        invariant count > 0 ==> |g| > 0
        decreases todo
      {
        var i := Pick(todo);
        HasKey(g, i);
        forall n | n in g[i] ensures n in graph { assert Edge(g, i, n); }
        var sent := SendOne(i, g, a, todo);
        todo := todo - {i};
        if sent { count := count + 1; }
      }
    }

    /** Ready to work off the messages held. */
    ghost predicate Prepared(i: int)
      requires i in graph
      reads this, graph[i]
    {
      var n := graph[i];
      && n in nodes && n.id == i && n.FiniteHasHop() && n.Capped()
      && (forall m :: m in n.updatesFromNei ==> Digestible(n.edges, n.distanceToThatNode.Keys, m))
    }

    /** Router i has worked off its mail, or still waits with it. */
    ghost predicate Stage(i: int, was: map<int, Router>, mail: map<int, seq<Update>>, done: bool)
      reads this, nodes
    {
      i in graph && i in was && i in mail && graph[i] in nodes && graph[i].id == i &&
      var n := graph[i];
      if done then n.updatesFromNei == [] && Merged(n.edges, was[i], n.Value(), mail[i])
      else n.updatesFromNei == mail[i] && n.Value() == was[i] && Prepared(i)
    }

    /** Every router works off its messages. */
    method UpdateAll(ghost was: map<int, Router>, ghost mail: map<int, seq<Update>>) returns (count: nat)
      requires forall i {:trigger Stage(i, was, mail, false)} :: i in graph ==> Stage(i, was, mail, false)
      modifies nodes`distanceToThatNode, nodes`forwardingTable, nodes`updatesFromNei, nodes`beUpdated
      ensures forall i {:trigger Stage(i, was, mail, true)} :: i in graph ==> Stage(i, was, mail, true)
      ensures count == 0 <==> forall i {:trigger graph[i]} :: i in graph ==> !graph[i].beUpdated
    {
      count := 0;
      var todo := graph.Keys;
      while todo != {}
        invariant todo <= graph.Keys
        invariant forall i {:trigger Stage(i, was, mail, false)} :: i in todo ==> Stage(i, was, mail, false)
        invariant forall i {:trigger Stage(i, was, mail, true)} :: i in graph && i !in todo ==>
                    Stage(i, was, mail, true)
        invariant count == 0 <==> forall i :: i in graph && i !in todo ==> !graph[i].beUpdated
        decreases todo
      {
        var i := Pick(todo);
        assert Stage(i, was, mail, false);
        todo := todo - {i};
        forall j | j in graph && j != i ensures graph[j] != graph[i] {
          assert Stage(j, was, mail, false) || Stage(j, was, mail, true);
        }
        label Before:
        var changed := graph[i].UpdateDistanceAndForwardingTable();
        forall j | j in todo ensures Stage(j, was, mail, false) {
          assert old@Before(Stage(j, was, mail, false));
        }
        forall j | j in graph && j !in todo ensures Stage(j, was, mail, true) {
          assert j == i || old@Before(Stage(j, was, mail, true));
        }
        if changed { count := count + 1; }
      }
    }

    lemma ViewIsShown()
      requires Filed()
      ensures Shows(Weights(), View())
    {
    }

    lemma ShownIsView(g: Adjacency, a: Network)
      requires Shows(g, a)
      ensures Filed() && Weights() == g && View() == a
    {
      assert forall i :: i in Weights() <==> i in g;
      assert forall i :: i in g ==> Weights()[i] == g[i];
      assert forall i :: i in View() <==> i in a;
      assert forall i :: i in a ==> View()[i] == a[i];
    }

    lemma Prepare(g: Adjacency, a: Network, w: nat, k: nat, i: int)
      requires Shows(g, a) && Sound(g) && Bounded(g, w) && k < |g| && BestAfter(g, k, a) && AllDelivered(g, a, {})
      requires i in graph && graph[i].FiniteHasHop()
      ensures Prepared(i)
    {
      var n := graph[i];
      assert Row(g, a, i) && n.Value() == a[i] && n.edges == g[i] && n.distanceToThatNode.Keys == g.Keys;
      StateInRange(g, w, k, a);
      assert Delivered(g, a, {}, i, n.updatesFromNei);
      forall m | m in n.updatesFromNei ensures Digestible(n.edges, n.distanceToThatNode.Keys, m) {
        DeliveredFits(g, w, k, a, i, n.updatesFromNei, m);
      }
      forall t | t in n.distanceToThatNode ensures n.distanceToThatNode[t] <= INT_MAX {
        assert DistAt(g, a, i, t) <= INT_MAX;
      }
    }

    lemma AllPrepared(g: Adjacency, a: Network, w: nat, k: nat)
      requires Shows(g, a) && Sound(g) && Bounded(g, w) && k < |g| && BestAfter(g, k, a) && AllDelivered(g, a, {})
      requires forall i {:trigger graph[i]} :: i in graph ==> graph[i].FiniteHasHop()
      ensures forall i {:trigger Prepared(i)} :: i in graph ==> Prepared(i)
    {
      forall i | i in graph ensures Prepared(i) {
        Prepare(g, a, w, k, i);
      }
    }

    lemma NothingReceived(g: Adjacency, a: Network)
      requires Shows(g, a) && AllDelivered(g, a, {}) && NoSender(g, a)
      ensures forall i {:trigger graph[i]} :: i in graph ==> graph[i].updatesFromNei == []
    {
      forall i | i in graph ensures graph[i].updatesFromNei == [] {
        var msgs := graph[i].updatesFromNei;
        assert Delivered(g, a, {}, i, msgs);
        assert forall m :: m in msgs ==> !Isolated(g, m.0);
        if msgs != [] {
          SomeMember(msgs);
          assert false;
        }
      }
    }

    lemma NobodySentYet(g: Adjacency, a: Network)
      requires Shows(g, a) && Tabled()
      ensures AllDelivered(g, a, graph.Keys)
    {
      forall u | u in graph ensures graph[u].updatesFromNei == [] {
        assert OwnTable(u);
      }
    }

    /** The first half of a round. */
    method SendPhase(ghost g: Adjacency, ghost a: Network) returns (count: nat)
      requires Shows(g, a) && Tabled() && Sound(g)
      modifies nodes`updatesFromNei
      ensures AllDelivered(g, a, {}) && (count > 0 ==> |g| > 0)
      ensures count == 0 ==>
                NoSender(g, a) && forall i {:trigger graph[i]} :: i in graph ==> graph[i].updatesFromNei == []
    {
      NobodySentYet(g, a);
      count := SendAll(g, a);
      if count == 0 {
        NothingReceived(g, a);
      }
    }

    /** The second half of a round, as the nodes see it. */
    method UpdateNodes(ghost g: Adjacency, ghost a: Network)
      returns (count: nat, ghost b: Network, ghost mail: map<int, seq<Update>>)
      requires Shows(g, a) && AllDelivered(g, a, {})
      requires forall i {:trigger Prepared(i)} :: i in graph ==> Prepared(i)
      modifies nodes`distanceToThatNode, nodes`forwardingTable, nodes`updatesFromNei, nodes`beUpdated
      ensures Shows(g, b)
      ensures AllMailed(g, a, mail) && AllHandled(g, a, b, mail)
      ensures forall i {:trigger graph[i]} :: i in graph ==> graph[i].updatesFromNei == []
      ensures count == 0 <==> Quiet(b)
    {
      ShownIsView(g, a);
      mail := map i | i in graph :: graph[i].updatesFromNei;
      forall i | i in graph ensures Stage(i, a, mail, false) && Mailed(g, a, mail, i) {
        assert Prepared(i) && Delivered(g, a, {}, i, graph[i].updatesFromNei);
      }
      count := UpdateAll(a, mail);
      ViewIsShown();
      b := View();
      forall i | i in graph ensures Handled(g, a, b, mail, i) && graph[i].updatesFromNei == [] {
        assert Stage(i, a, mail, true);
      }
    }

    lemma NetworkKeys(g: Adjacency, a: Network)
      requires Shows(g, a)
      ensures a.Keys == g.Keys
    {
      ShownIsView(g, a);
      assert View().Keys == graph.Keys && Weights().Keys == graph.Keys;
    }

    /** The second half of a round: afterwards all is known, or the loop can go on. */
    method MergePhase(ghost p: Going) returns (again: bool, ghost b: Network)
      requires Shows(p.g, p.a) && AllDelivered(p.g, p.a, {}) && |p.g| > 0
      requires forall i {:trigger graph[i]} :: i in graph ==> graph[i].FiniteHasHop()
      modifies nodes`distanceToThatNode, nodes`forwardingTable, nodes`updatesFromNei, nodes`beUpdated
      ensures Shows(p.g, b) && OwnLabels(p.g, b)
      ensures forall i {:trigger graph[i]} :: i in graph ==> graph[i].updatesFromNei == []
      ensures if again then LoopState(p.g, p.w, p.k + 1, b) else AllBest(p.g, b)
    {
      AllPrepared(p.g, p.a, p.w, p.k);
      var count;
      ghost var mail;
      count, b, mail := UpdateNodes(p.g, p.a);
      NetworkKeys(p.g, b);
      RoundOnValues(p.g, p.w, p.k, p.a, b, mail);
      again := count != 0;
    }

    lemma TabledHasHops()
      requires Tabled()
      ensures forall i {:trigger graph[i]} :: i in graph ==> graph[i].FiniteHasHop()
    {
      forall i | i in graph ensures graph[i].FiniteHasHop() {
        assert OwnTable(i);
      }
    }

    /** A whole round; when nothing was sent or nothing changed, all is known. */
    method Round(ghost p: Going) returns (sent: bool, again: bool, ghost q: Going, ghost b: Network)
      requires Shows(p.g, p.a) && Tabled()
      modifies nodes`distanceToThatNode, nodes`forwardingTable, nodes`updatesFromNei, nodes`beUpdated
      ensures Shows(p.g, b) && OwnLabels(p.g, b)
      ensures forall i {:trigger graph[i]} :: i in graph ==> graph[i].updatesFromNei == []
      ensures if again then q == Progress(p.g, p.w, p.k + 1, b) && sent else AllBest(p.g, b)
      ensures sent ==> |p.g| > 0
    {
      TabledHasHops();
      var count := SendPhase(p.g, p.a);
      sent, again, q := count != 0, false, p;
      if !sent {
        b := p.a;
        NoSenderIsFinal(p.g, p.w, p.k, p.a);
      } else {
        again, b := MergePhase(p);
        if again { q := Progress(p.g, p.w, p.k + 1, b); }
      }
    }

    lemma OwnLabelsAreTabled(g: Adjacency, a: Network)
      requires Shows(g, a) && OwnLabels(g, a)
      requires forall i {:trigger graph[i]} :: i in graph ==> graph[i].updatesFromNei == []
      ensures Tabled() && Complete()
    {
      ShownIsView(g, a);
      assert Weights().Keys == graph.Keys;
      forall i | i in graph ensures OwnTable(i) && FullTable(i) {
        assert Row(g, a, i) && graph[i].Value() == a[i];
        assert At(g, a, i, i) == Label(0, i);
        forall t | t in graph[i].distanceToThatNode && graph[i].distanceToThatNode[t] < INT_MAX
          ensures t in graph[i].forwardingTable
        {
          assert HasHop(g, a, i, t);
        }
      }
    }

    lemma NodeCount(g: Adjacency, a: Network)
      requires Shows(g, a)
      ensures |g| == |graph|
    {
      ShownIsView(g, a);
      assert Weights().Keys == graph.Keys && |g.Keys| == |g| && |graph.Keys| == |graph|;
    }

    /** Sends and merges until nothing is sent or nothing changes; counts the rounds with anything sent. */
    method RunRounds(ghost g: Adjacency, ghost a: Network, ghost w: nat) returns (rounds: nat, ghost b: Network)
      requires Shows(g, a) && Tabled() && LoopState(g, w, 0, a)
      modifies nodes`distanceToThatNode, nodes`forwardingTable, nodes`updatesFromNei, nodes`beUpdated
      ensures Shows(g, b) && OwnLabels(g, b) && AllBest(g, b) && rounds <= |g|
      ensures forall i {:trigger graph[i]} :: i in graph ==> graph[i].updatesFromNei == []
    {
      ghost var p: Going := Progress(g, w, 0, a);
      rounds := 0;
      while true
        invariant p.g == g && Shows(g, p.a) && Tabled()
        invariant rounds <= p.k && (p.k < |g| || |g| == 0 == p.k)
        decreases |g| - p.k
      {
        var sent, again;
        sent, again, p, b := Round(p);
        if sent { rounds := rounds + 1; }
        if !again { break; }
        OwnLabelsAreTabled(g, b);
      }
    }

    lemma LoopStarts(w: nat)
      requires Valid() && Bounded(Weights(), w) && Reset(Weights(), View())
      ensures Shows(Weights(), View()) && LoopState(Weights(), w, 0, View())
    {
      ViewIsShown();
      ShapedView();
      StartOnValues(Weights(), w, View());
    }

    lemma LoopEnds(g: Adjacency, b: Network)
      requires Sound(g) && Shows(g, b) && OwnLabels(g, b) && AllBest(g, b)
      requires forall i {:trigger graph[i]} :: i in graph ==> graph[i].updatesFromNei == []
      ensures Valid() && Weights() == g && AllBest(Weights(), View()) && |g| == |graph|
    {
      OwnLabelsAreTabled(g, b);
      NodeCount(g, b);
      ShownIsView(g, b);
    }

    method BuildNodesForwardingTables(ghost w: nat) returns (rounds: nat)
      requires Valid() && Bounded(Weights(), w) && Reset(Weights(), View())
      modifies nodes`distanceToThatNode, nodes`forwardingTable, nodes`updatesFromNei, nodes`beUpdated
      ensures Valid() && Weights() == old(Weights())
      ensures AllBest(Weights(), View()) && rounds <= |graph|
    {
      ghost var g, a := Weights(), View();
      LoopStarts(w);
      rounds, a := RunRounds(g, a, w);
      LoopEnds(g, a);
    }

    lemma EmptyIsReset()
      requires Valid() && graph == map[]
      ensures Weights() == map[] && Reset(Weights(), View())
    {
    }

    /** Reads the topology file. */
    method Load(topo: seq<Line>)
      requires Valid() && graph == map[] && Usable(topo)
      modifies this, nodes
      ensures Valid() && fresh(nodes - old(nodes)) && Weights() == ApplyLines(topo) && Reset(Weights(), View())
    {
      EmptyIsReset();
      var i := 0;
      while i < |topo|
        invariant 0 <= i <= |topo| && Valid() && fresh(nodes - old(nodes))
        invariant Weights() == ApplyLines(topo[..i]) && Reset(Weights(), View())
      {
        OneMoreLine(topo, i);
        BuildGraph(topo[i]);
        i := i + 1;
      }
      assert topo[..i] == topo;
    }

    /** All tables are up to date with topology g. */
    ghost predicate Ready(g: Adjacency)
      reads this, nodes
    {
      Valid() && Weights() == g && AllBest(g, View())
    }

    /** One line of the change file. */
    method Change(l: Line, ghost g: Adjacency, ghost w: nat)
      requires Ready(g) && l.node1 >= 0 && l.node2 >= 0 && Bounded(ApplyLine(g, l), w)
      modifies this, nodes
      ensures Ready(ApplyLine(g, l)) && fresh(nodes - old(nodes))
    {
      BuildGraph(l);
      var _ := BuildNodesForwardingTables(w);
    }

    method ReadTopology(topo: seq<Line>, ghost w: nat)
      requires Valid() && graph == map[] && Usable(topo) && Bounded(ApplyLines(topo), w)
      modifies this, nodes
      ensures Ready(ApplyLines(topo)) && fresh(nodes - old(nodes))
    {
      Load(topo);
      var _ := BuildNodesForwardingTables(w);
    }

    /** The program's run: the topology file, then one change at a time, with all tables brought up to date after
        each. */
    method Run(topo: seq<Line>, changes: seq<Line>, ghost w: nat)
      requires Valid() && graph == map[] && Usable(topo + changes) && AlwaysBounded(topo, changes, w)
      modifies this, nodes
      ensures Ready(ApplyLines(topo + changes))
    {
      FirstLines(topo, changes, w);
      ReadTopology(topo, w);
      var i := 0;
      while i < |changes|
        invariant 0 <= i <= |changes| && fresh(nodes - old(nodes))
        invariant Ready(ApplyLines(topo + changes[..i]))
      {
        NextChange(topo, changes, i, w);
        Change(changes[i], ApplyLines(topo + changes[..i]), w);
        i := i + 1;
      }
      assert changes[..i] == changes;
    }

    /** What the forwarding table of router u says about the way to t. */
    lemma HopOf(g: Adjacency, a: Network, u: int, t: int)
      requires Shows(g, a) && Sound(g) && AllBest(g, a) && u in graph && t in graph && DistAt(g, a, u, t) < INT_MAX
      requires Canonical(g, TreeTo(a, t))
      ensures u in g && t in g && t in graph[u].forwardingTable
      ensures var tree, hop := TreeTo(a, t), graph[u].forwardingTable[t];
              if u == t then
                hop == t && RootPath(g, tree, u) == [t]
              else
                && hop in graph && hop in g && 0 <= DistAt(g, a, hop, t) < DistAt(g, a, u, t)
                && RootPath(g, tree, u) == [u] + RootPath(g, tree, hop)
    {
      var tree := TreeTo(a, t);
      LabelToIsBest(g, a, t, u);
      assert Row(g, a, u) && graph[u].Value() == a[u];
      if u == t {
        assert Joins(g, t, t, [t]) && Key(g, [t]) == Label(0, t);
        CanonicalIsBest(g, tree, t);
        BestIsUnique(g, t, t, At(g, a, t, t), Label(0, t));
      } else {
        assert LeastTight(g, tree, u) && Edge(g, u, tree.via[u]);
        LabelToIsBest(g, a, t, tree.via[u]);
      }
    }

    /** The routers a packet visits on its way from `from` to `to`, without `to` unless that is where it starts. */
    method NextHops(from: int, to: int, ghost g: Adjacency, ghost a: Network) returns (result: seq<int>)
      requires Shows(g, a) && Sound(g) && AllBest(g, a) && from in graph && to in graph
      requires DistAt(g, a, from, to) < INT_MAX
      ensures Canonical(g, TreeTo(a, to)) && TreeTo(a, to).dist[from] < INT_MAX
      ensures var path := RootPath(g, TreeTo(a, to), from);
              result == if from == to then [from] else path[..|path| - 1]
    {
      ghost var tree := TreeTo(a, to);
      TreeToIsCanonical(g, a, to);
      HopOf(g, a, from, to);
      ghost var path := RootPath(g, tree, from);
      result := [];
      var curr := graph[from];
      while true
        invariant curr.id in graph && curr == graph[curr.id] && DistAt(g, a, curr.id, to) < INT_MAX
        invariant curr.id == to ==> from == to && result == []
        invariant curr.id != to ==> from != to && result + RootPath(g, tree, curr.id) == path
        decreases DistAt(g, a, curr.id, to)
      {
        HopOf(g, a, curr.id, to);
        ghost var rest := RootPath(g, tree, curr.id);
        ghost var was := result;
        result := result + [curr.id];
        curr := graph[curr.forwardingTable[to]];
        HeadMoves(was, rest);
        if curr.id == to { break; }
      }
    }

    /** The hops as they are printed are the routers a packet visits when each forwards it by its own table, without
        the destination unless that is where it starts. */
    method PrintedHops(from: int, to: int, ghost g: Adjacency, ghost a: Network, ghost tables: map<int, map<int, int>>)
      returns (printed: seq<int>)
      requires Shows(g, a) && Sound(g) && AllBest(g, a) && from in graph && to in graph
      requires DistAt(g, a, from, to) < INT_MAX
      requires TablesOf(a, tables)
      ensures var path := Follow(tables, from, to, |g|);
              printed == if from == to then [from] else path[..|path| - 1]
    {
      PacketsFollowTreeTo(g, a, tables, from, to);
      var hops := NextHops(from, to, g, a);
      printed := [];
      var i := 0;
      while i < |hops|
        invariant 0 <= i <= |hops| && printed == hops[..i]
      {
        printed := printed + [hops[i]];
        i := i + 1;
      }
    }
  }
}
