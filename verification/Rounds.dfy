/** Synchronous distance-vector rounds on values: what one round computes, why it is enough that only
    changed routers send, and what k rounds amount to. */
module Rounds {
  import opened Topology
  import opened CanonicalTree

  /** A router's distance and forwarding tables, and whether its last merge changed them. */
  datatype Record<Dists, Hops> = Router(dist: Dists, fwd: Hops, updated: bool)

  type Router = Record<map<int, int>, map<int, int>>

  function LabelAt(r: Router, t: int): Label
    requires t in r.dist
  {
    Label(r.dist[t], if t in r.fwd then r.fwd[t] else -1)
  }

  type Network = map<int, Router>

  ghost predicate Row(g: Adjacency, a: Network, u: int) {
    u in a && a[u].dist.Keys == g.Keys
  }

  /** Every router of the topology has a distance to every other, and to nothing else. */
  ghost predicate Shaped(g: Adjacency, a: Network) {
    a.Keys == g.Keys && forall u {:trigger Row(g, a, u)} :: u in g ==> Row(g, a, u)
  }

  ghost function DistAt(g: Adjacency, a: Network, u: int, t: int): int
    requires Shaped(g, a) && u in g && t in g
  {
    assert Row(g, a, u);
    a[u].dist[t]
  }

  ghost function At(g: Adjacency, a: Network, u: int, t: int): Label
    requires Shaped(g, a) && u in g && t in g
  {
    assert Row(g, a, u);
    LabelAt(a[u], t)
  }

  /** v's message offers u this label for destination t. */
  ghost function Offer(g: Adjacency, a: Network, u: int, v: int, t: int): Label
    requires Shaped(g, a) && u in g && v in g[u] && v in g && t in g
  {
    Label(g[u][v] + DistAt(g, a, v, t), v)
  }

  /** v is a neighbour of u among the senders and knows a way to t. */
  ghost predicate Offers(g: Adjacency, a: Network, senders: set<int>, u: int, v: int, t: int)
    requires Shaped(g, a) && u in g && t in g
  {
    v in g[u] && v in senders && v in g && DistAt(g, a, v, t) < INT_MAX
  }

  /** l is u's label for t in a, or one it was offered out of a. */
  ghost predicate Taken(g: Adjacency, a: Network, senders: set<int>, u: int, t: int, l: Label)
    requires Shaped(g, a) && u in g && t in g
  {
    l == At(g, a, u, t) || exists v :: Offers(g, a, senders, u, v, t) && l == Offer(g, a, u, v, t)
  }

  /** Neither an offer nor the label in a is better than l. */
  ghost predicate Unbeaten(g: Adjacency, a: Network, senders: set<int>, u: int, t: int, l: Label)
    requires Shaped(g, a) && u in g && t in g
  {
    && !Better(At(g, a, u, t), l)
    && (forall v :: Offers(g, a, senders, u, v, t) ==> !Better(Offer(g, a, u, v, t), l))
  }

  /** l is the least among u's label for t and all it was offered. */
  ghost predicate Least(g: Adjacency, a: Network, senders: set<int>, u: int, t: int, l: Label)
    requires Shaped(g, a) && u in g && t in g
  {
    Taken(g, a, senders, u, t, l) && Unbeaten(g, a, senders, u, t, l)
  }

  /** Every router merged the messages the senders sent in state a, reaching state b. */
  ghost predicate Round(g: Adjacency, a: Network, b: Network, senders: set<int>) {
    && Shaped(g, a) && Shaped(g, b)
    && (forall u, t {:trigger Least(g, a, senders, u, t, At(g, b, u, t))} ::
          u in g && t in g ==> Least(g, a, senders, u, t, At(g, b, u, t)))
  }

  ghost predicate SameLabels(g: Adjacency, a: Network, b: Network)
    requires Shaped(g, a) && Shaped(g, b)
  {
    forall u, t {:trigger At(g, b, u, t)} {:trigger At(g, a, u, t)} ::
      u in g && t in g ==> At(g, b, u, t) == At(g, a, u, t)
  }

  ghost predicate Differs(x: Router, y: Router) {
    exists t :: t in x.dist && t in y.dist && LabelAt(y, t) != LabelAt(x, t)
  }

  /** The flags in b say which routers changed since a. */
  ghost predicate Flagged(g: Adjacency, a: Network, b: Network)
    requires Shaped(g, a) && Shaped(g, b)
  {
    forall u {:trigger b[u].updated} :: u in g ==> (b[u].updated <==> Differs(a[u], b[u]))
  }

  function Changed(a: Network): set<int> {
    set v | v in a && a[v].updated
  }

  /** Whatever an unchanged router would send, its neighbours have already taken into account. */
  ghost predicate Coherent(g: Adjacency, a: Network) {
    Shaped(g, a) &&
    forall u, v, t {:trigger Offers(g, a, g.Keys, u, v, t)} ::
      u in g && t in g && v !in Changed(a) && Offers(g, a, g.Keys, u, v, t) ==>
      !Better(Offer(g, a, u, v, t), At(g, a, u, t))
  }

  ghost predicate Quiet(a: Network) {
    forall u {:trigger a[u]} :: u in a ==> !a[u].updated
  }

  lemma QuietMeansSame(g: Adjacency, a: Network, b: Network)
    requires Shaped(g, a) && Shaped(g, b) && Flagged(g, a, b)
    ensures Quiet(b) <==> SameLabels(g, a, b)
  {
    forall u | u in g ensures b[u].updated <==> exists t :: t in g && At(g, b, u, t) != At(g, a, u, t) {
      assert Row(g, a, u) && Row(g, b, u);
      if t :| t in a[u].dist && t in b[u].dist && LabelAt(b[u], t) != LabelAt(a[u], t) {
        assert At(g, b, u, t) != At(g, a, u, t);
      }
    }
  }

  /** Two rounds out of the same state end in the same labels. */
  lemma RoundIsDeterministic(g: Adjacency, a: Network, b: Network, c: Network, senders: set<int>)
    requires Round(g, a, b, senders) && Round(g, a, c, senders)
    ensures SameLabels(g, b, c)
  {
    forall u, t | u in g && t in g ensures At(g, c, u, t) == At(g, b, u, t) {
      assert Least(g, a, senders, u, t, At(g, b, u, t)) && Least(g, a, senders, u, t, At(g, c, u, t));
    }
  }

  lemma ChangedOffersSuffice(g: Adjacency, a: Network, u: int, t: int, l: Label)
    requires Coherent(g, a) && u in g && t in g && Least(g, a, Changed(a), u, t, l)
    ensures Least(g, a, g.Keys, u, t, l)
  {
    if v :| Offers(g, a, Changed(a), u, v, t) && l == Offer(g, a, u, v, t) {
      assert Offers(g, a, g.Keys, u, v, t);
    }
    forall v | Offers(g, a, g.Keys, u, v, t) ensures !Better(Offer(g, a, u, v, t), l) {
      if v in Changed(a) { assert Offers(g, a, Changed(a), u, v, t); }
    }
  }

  /** A round in which only changed routers send is a round in which all routers send. */
  lemma SendingOnlyChangesSuffices(g: Adjacency, a: Network, b: Network)
    requires Coherent(g, a) && Round(g, a, b, Changed(a))
    ensures Round(g, a, b, g.Keys)
  {
    forall u, t | u in g && t in g ensures Least(g, a, g.Keys, u, t, At(g, b, u, t)) {
      assert Least(g, a, Changed(a), u, t, At(g, b, u, t));
      ChangedOffersSuffice(g, a, u, t, At(g, b, u, t));
    }
  }

  /** ... and leaves a state of which the same can be said. */
  lemma RoundKeepsCoherent(g: Adjacency, a: Network, b: Network)
    requires Round(g, a, b, g.Keys) && Flagged(g, a, b)
    ensures Coherent(g, b)
  {
    forall u, v, t | u in g && t in g && v !in Changed(b) && Offers(g, b, g.Keys, u, v, t)
      ensures !Better(Offer(g, b, u, v, t), At(g, b, u, t))
    {
      assert Row(g, a, v) && Row(g, b, v) && !Differs(a[v], b[v]);
      assert At(g, b, v, t) == At(g, a, v, t);
      assert Offers(g, a, g.Keys, u, v, t) && Least(g, a, g.Keys, u, t, At(g, b, u, t));
    }
  }

  /** A state with the same labels answers the senders' messages in the same way. */
  lemma SameLabelsSameRound(g: Adjacency, a: Network, c: Network, b: Network, senders: set<int>)
    requires Round(g, a, b, senders) && Shaped(g, c) && SameLabels(g, a, c)
    ensures Round(g, c, b, senders)
  {
    forall u, t | u in g && t in g ensures Least(g, c, senders, u, t, At(g, b, u, t)) {
      assert Least(g, a, senders, u, t, At(g, b, u, t)) && At(g, c, u, t) == At(g, a, u, t);
      forall v | v in g[u] && v in g
        ensures Offers(g, c, senders, u, v, t) <==> Offers(g, a, senders, u, v, t)
        ensures Offer(g, c, u, v, t) == Offer(g, a, u, v, t)
      {
        assert At(g, c, v, t) == At(g, a, v, t);
      }
    }
  }

  /** Round i of the run, in which only changed routers send. */
  ghost predicate SparseRound(g: Adjacency, run: seq<Network>, i: int)
    requires 0 <= i && i + 1 < |run|
  {
    Round(g, run[i], run[i + 1], Changed(run[i])) && Flagged(g, run[i], run[i + 1])
  }

  /** Round i of the run, in which everybody sends. */
  ghost predicate FullRound(g: Adjacency, run: seq<Network>, i: int)
    requires 0 <= i && i + 1 < |run|
  {
    Round(g, run[i], run[i + 1], g.Keys)
  }

  /** For every number of rounds: a run in which only changed routers send and one in which everybody does are in the
      same labels, distances and next hops alike. */
  lemma {:induction false} SparseRunsSuffice(g: Adjacency, sparse: seq<Network>, full: seq<Network>, k: nat)
    requires k < |sparse| == |full| && Coherent(g, sparse[0]) && Shaped(g, full[0]) && SameLabels(g, sparse[0], full[0])
    requires forall i {:trigger SparseRound(g, sparse, i)} :: 0 <= i < |sparse| - 1 ==> SparseRound(g, sparse, i)
    requires forall i {:trigger FullRound(g, full, i)} :: 0 <= i < |full| - 1 ==> FullRound(g, full, i)
    ensures Coherent(g, sparse[k]) && Shaped(g, full[k]) && SameLabels(g, sparse[k], full[k])
  {
    if k > 0 {
      SparseRunsSuffice(g, sparse, full, k - 1);
      assert SparseRound(g, sparse, k - 1) && FullRound(g, full, k - 1);
      SendingOnlyChangesSuffices(g, sparse[k - 1], sparse[k]);
      RoundKeepsCoherent(g, sparse[k - 1], sparse[k]);
      SameLabelsSameRound(g, sparse[k - 1], full[k - 1], sparse[k], g.Keys);
      RoundIsDeterministic(g, full[k - 1], sparse[k], full[k], g.Keys);
    }
  }

  // ---------- What k rounds compute ----------

  /** Each label is the least (cost, first hop) over the walks of at most k edges. */
  ghost predicate BestAfter(g: Adjacency, k: nat, a: Network) {
    Shaped(g, a) && forall u, t {:trigger BestWithin(g, k, u, t, At(g, a, u, t))} ::
      u in g && t in g ==> BestWithin(g, k, u, t, At(g, a, u, t))
  }

  /** Each label is the least (cost, first hop) over all walks. */
  ghost predicate AllBest(g: Adjacency, a: Network) {
    Shaped(g, a) && forall u, t {:trigger Best(g, u, t, At(g, a, u, t))} ::
      u in g && t in g ==> Best(g, u, t, At(g, a, u, t))
  }

  lemma LessIsLess(x: int, y: int, w: nat)
    requires x <= y
    ensures x * w <= y * w
  {
  }

  lemma OfferIsWalk(g: Adjacency, w: nat, k: nat, a: Network, u: int, v: int, t: int) returns (p: seq<int>)
    requires Sound(g) && Bounded(g, w) && k < |g| && BestAfter(g, k, a) && u in g && t in g
    requires Offers(g, a, g.Keys, u, v, t)
    ensures Joins(g, u, t, p) && |p| - 1 <= k + 1 && Key(g, p) == Offer(g, a, u, v, t)
    ensures Offer(g, a, u, v, t).dist < INT_MAX
  {
    assert Edge(g, u, v) && BestWithin(g, k, v, t, At(g, a, v, t));
    var q :| Joins(g, v, t, q) && |q| - 1 <= k && Key(g, q) == At(g, a, v, t);
    p := [u] + q;
    assert p[1..] == q;
    CostBounded(g, w, p);
    LessIsLess(|p| - 1, |g|, w);
  }

  /** If v's label is no worse than the walk from v, then after a round u's is no worse than [u] + that walk. */
  lemma ThroughNeighbour(g: Adjacency, w: nat, k: nat, a: Network, b: Network, u: int, t: int, p: seq<int>)
    requires Sound(g) && Bounded(g, w) && k < |g| && BestAfter(g, k, a) && Round(g, a, b, g.Keys)
    requires Joins(g, u, t, p) && t in g && |p| > 1 && p[1] in g
    requires DistAt(g, a, p[1], t) <= Cost(g, p[1..]) && DistAt(g, a, p[1], t) < INT_MAX
    ensures DistAt(g, b, u, t) < INT_MAX && !Better(Key(g, p), At(g, b, u, t))
  {
    var v := p[1];
    assert Offers(g, a, g.Keys, u, v, t) && Least(g, a, g.Keys, u, t, At(g, b, u, t));
    var _ := OfferIsWalk(g, w, k, a, u, v, t);
  }

  /** No walk of at most k + 1 edges has a better key than the label after the round. */
  lemma RoundBeatsWalk(g: Adjacency, w: nat, k: nat, a: Network, b: Network, u: int, t: int, p: seq<int>)
    requires Sound(g) && Bounded(g, w) && k < |g| && BestAfter(g, k, a) && Round(g, a, b, g.Keys)
    requires Joins(g, u, t, p) && t in g && |p| - 1 <= k + 1
    ensures DistAt(g, b, u, t) < INT_MAX && !Better(Key(g, p), At(g, b, u, t))
  {
    if |p| == 1 {
      assert Least(g, a, g.Keys, u, t, At(g, b, u, t)) && BestWithin(g, k, u, t, At(g, a, u, t));
    } else {
      var v := p[1];
      assert Edge(g, u, v) && Joins(g, v, t, p[1..]);
      assert BestWithin(g, k, v, t, At(g, a, v, t));
      assert !Better(Key(g, p[1..]), At(g, a, v, t));
      ThroughNeighbour(g, w, k, a, b, u, t, p);
    }
  }

  lemma RoundAdvancesAt(g: Adjacency, w: nat, k: nat, a: Network, b: Network, u: int, t: int)
    requires Sound(g) && Bounded(g, w) && k < |g| && BestAfter(g, k, a) && Round(g, a, b, g.Keys) && u in g && t in g
    ensures BestWithin(g, k + 1, u, t, At(g, b, u, t))
  {
    var l := At(g, b, u, t);
    assert Least(g, a, g.Keys, u, t, At(g, b, u, t));
    assert BestWithin(g, k, u, t, At(g, a, u, t));
    if v :| Offers(g, a, g.Keys, u, v, t) && l == Offer(g, a, u, v, t) {
      var p := OfferIsWalk(g, w, k, a, u, v, t);
    }
    forall p | Joins(g, u, t, p) && |p| - 1 <= k + 1
      ensures l.dist < INT_MAX && !Better(Key(g, p), l)
    {
      RoundBeatsWalk(g, w, k, a, b, u, t, p);
    }
  }

  /** One more round looks one edge further. */
  lemma RoundAdvances(g: Adjacency, w: nat, k: nat, a: Network, b: Network)
    requires Sound(g) && Bounded(g, w) && k < |g| && BestAfter(g, k, a) && Round(g, a, b, g.Keys)
    ensures BestAfter(g, k + 1, b)
  {
    forall u, t | u in g && t in g ensures BestWithin(g, k + 1, u, t, At(g, b, u, t)) {
      RoundAdvancesAt(g, w, k, a, b, u, t);
    }
  }

  lemma EnoughRounds(g: Adjacency, k: nat, a: Network)
    requires Sound(g) && k >= |g| - 1 && BestAfter(g, k, a)
    ensures AllBest(g, a)
  {
    forall u, t | u in g && t in g ensures Best(g, u, t, At(g, a, u, t)) {
      BestWithinNodes(g, k, u, t, At(g, a, u, t));
    }
  }

  /** From round |g| - 1 on nothing changes any more, next hops included. */
  lemma LateRoundIsQuiet(g: Adjacency, w: nat, k: nat, a: Network, b: Network)
    requires Sound(g) && Bounded(g, w) && |g| - 1 <= k < |g| && BestAfter(g, k, a) && Round(g, a, b, g.Keys)
    ensures SameLabels(g, a, b)
  {
    RoundAdvances(g, w, k, a, b);
    EnoughRounds(g, k, a);
    EnoughRounds(g, k + 1, b);
    forall u, t | u in g && t in g ensures At(g, b, u, t) == At(g, a, u, t) {
      assert Least(g, a, g.Keys, u, t, At(g, b, u, t));
      if v :| Offers(g, a, g.Keys, u, v, t) && At(g, b, u, t) == Offer(g, a, u, v, t) {
        var _ := OfferIsWalk(g, w, k, a, u, v, t);
      }
      BestIsUnique(g, u, t, At(g, a, u, t), At(g, b, u, t));
    }
  }

  lemma {:induction false} QuietBeatsWalk(g: Adjacency, w: nat, k: nat, a: Network, u: int, t: int, p: seq<int>)
    requires Sound(g) && Bounded(g, w) && k < |g| && BestAfter(g, k, a) && Round(g, a, a, g.Keys)
    requires Joins(g, u, t, p) && t in g
    ensures DistAt(g, a, u, t) < INT_MAX && !Better(Key(g, p), At(g, a, u, t))
    decreases |p|
  {
    if |p| == 1 {
      assert BestWithin(g, k, u, t, At(g, a, u, t));
    } else {
      var v := p[1];
      assert Edge(g, u, v);
      QuietBeatsWalk(g, w, k, a, v, t, p[1..]);
      ThroughNeighbour(g, w, k, a, a, u, t, p);
    }
  }

  /** Stopping at the first quiet round loses nothing, however early it comes. */
  lemma QuietIsFinal(g: Adjacency, w: nat, k: nat, a: Network)
    requires Sound(g) && Bounded(g, w) && k < |g| && BestAfter(g, k, a) && Round(g, a, a, g.Keys)
    ensures AllBest(g, a)
  {
    forall u, t | u in g && t in g ensures Best(g, u, t, At(g, a, u, t)) {
      forall p | Joins(g, u, t, p)
        ensures At(g, a, u, t).dist < INT_MAX && !Better(Key(g, p), At(g, a, u, t))
      {
        QuietBeatsWalk(g, w, k, a, u, t, p);
      }
      assert BestWithin(g, k, u, t, At(g, a, u, t));
    }
  }

  // ---------- The tree of one destination ----------

  /** Distances to t and next hops towards t, all routers' taken together. */
  ghost function TreeTo(a: Network, t: int): Tree {
    Tree(t, map v | v in a && t in a[v].dist :: a[v].dist[t], map v | v in a && t in a[v].fwd :: a[v].fwd[t])
  }

  lemma LabelToIsBest(g: Adjacency, a: Network, t: int, v: int)
    requires Sound(g) && AllBest(g, a) && t in g && v in g
    ensures v in TreeTo(a, t).dist && TreeTo(a, t).dist[v] == DistAt(g, a, v, t)
    ensures Best(g, v, t, LabelOf(TreeTo(a, t), v))
    ensures v != t && DistAt(g, a, v, t) < INT_MAX ==> v in TreeTo(a, t).via
  {
    assert Row(g, a, v) && Best(g, v, t, At(g, a, v, t));
    if v == t {
      assert Joins(g, t, t, [t]) && Key(g, [t]) == Label(0, t);
      assert !Better(Label(0, t), At(g, a, t, t));
      var p :| Joins(g, t, t, p) && Key(g, p) == At(g, a, t, t);
      CostGrows(g, p);
    } else if DistAt(g, a, v, t) < INT_MAX {
      var p :| Joins(g, v, t, p) && Key(g, p) == At(g, a, v, t);
      assert Edge(g, v, p[1]);
    }
  }

  /** What the routers know about t once every label is best is the canonical tree rooted at t. */
  lemma TreeToIsCanonical(g: Adjacency, a: Network, t: int)
    requires Sound(g) && AllBest(g, a) && t in g
    ensures Canonical(g, TreeTo(a, t))
  {
    var tree := TreeTo(a, t);
    forall v | v in g
      ensures v in tree.dist && Best(g, v, t, LabelOf(tree, v)) && (v != t && tree.dist[v] < INT_MAX ==> v in tree.via)
    {
      LabelToIsBest(g, a, t, v);
    }
    assert forall v :: v in tree.dist <==> v in g;
    assert tree.dist.Keys == g.Keys;
    BestIsCanonical(g, tree);
  }

  /** The forwarding tables of the routers, by id. */
  ghost predicate TablesOf(a: Network, tables: map<int, map<int, int>>) {
    tables.Keys == a.Keys && forall u {:trigger tables[u]} {:trigger a[u]} :: u in a ==> tables[u] == a[u].fwd
  }

  /** Hop-by-hop forwarding with the converged tables traces out the tree's path. */
  lemma {:induction false} ForwardingFollowsTreeTo(
      g: Adjacency, a: Network, tables: map<int, map<int, int>>, u: int, t: int, ttl: nat)
    requires Sound(g) && AllBest(g, a) && TablesOf(a, tables) && Canonical(g, TreeTo(a, t))
    requires u in g && t in g && DistAt(g, a, u, t) < INT_MAX
    requires TreeTo(a, t).dist[u] < INT_MAX && ttl >= |RootPath(g, TreeTo(a, t), u)| - 1
    ensures Follow(tables, u, t, ttl) == RootPath(g, TreeTo(a, t), u)
    decreases ttl
  {
    if u != t {
      var tree := TreeTo(a, t);
      LabelToIsBest(g, a, t, u);
      assert LeastTight(g, tree, u) && Edge(g, u, tree.via[u]);
      var v := tree.via[u];
      LabelToIsBest(g, a, t, v);
      ForwardingFollowsTreeTo(g, a, tables, v, t, ttl - 1);
      FollowStep(tables, u, t, ttl);
    }
  }

  /** A packet reaches t from u along the tree's path. */
  lemma PacketsFollowTreeTo(g: Adjacency, a: Network, tables: map<int, map<int, int>>, u: int, t: int)
    requires Sound(g) && AllBest(g, a) && TablesOf(a, tables) && u in g && t in g && DistAt(g, a, u, t) < INT_MAX
    ensures Canonical(g, TreeTo(a, t)) && TreeTo(a, t).dist[u] < INT_MAX
    ensures Follow(tables, u, t, |g|) == RootPath(g, TreeTo(a, t), u)
  {
    TreeToIsCanonical(g, a, t);
    LabelToIsBest(g, a, t, u);
    RootPathIsSimple(g, TreeTo(a, t), u);
    ForwardingFollowsTreeTo(g, a, tables, u, t, |g|);
  }

  // ---------- In the middle of a round ----------

  ghost predicate NonNegative(g: Adjacency, a: Network, u: int, t: int)
    requires Shaped(g, a) && u in g && t in g
  {
    0 <= DistAt(g, a, u, t)
  }

  ghost predicate PointsDown(g: Adjacency, a: Network, u: int, t: int)
    requires Shaped(g, a) && u in g && t in g
  {
    && t in a[u].fwd && a[u].fwd[t] in g[u] && a[u].fwd[t] in g
    && DistAt(g, a, a[u].fwd[t], t) < INT_MAX
    && DistAt(g, a, u, t) >= g[u][a[u].fwd[t]] + DistAt(g, a, a[u].fwd[t], t)
  }

  /** Every finite entry points at a current neighbour that is nearer by at least the connecting edge. */
  ghost predicate Descending(g: Adjacency, a: Network) {
    && Shaped(g, a)
    && (forall u, t {:trigger NonNegative(g, a, u, t)} :: u in g && t in g ==> NonNegative(g, a, u, t))
    && (forall u, t {:trigger PointsDown(g, a, u, t)} ::
          u in g && t in g && u != t && DistAt(g, a, u, t) < INT_MAX ==> PointsDown(g, a, u, t))
  }

  ghost predicate HasHop(g: Adjacency, a: Network, u: int, t: int)
    requires Shaped(g, a) && u in g && t in g
  {
    DistAt(g, a, u, t) < INT_MAX ==> t in a[u].fwd
  }

  /** What u knows about t at some point while the messages sent in state a are being worked off,
      in any order and entry by entry: an old label or an offer, and no further away than before. */
  ghost predicate Midway(g: Adjacency, a: Network, c: Network, u: int, t: int)
    requires Shaped(g, a) && Shaped(g, c) && u in g && t in g
  {
    && Taken(g, a, g.Keys, u, t, At(g, c, u, t)) && DistAt(g, c, u, t) <= DistAt(g, a, u, t)
    && HasHop(g, c, u, t)
  }

  /** A state in the middle of the round that starts in a. */
  ghost predicate Between(g: Adjacency, a: Network, c: Network) {
    && Shaped(g, a) && Shaped(g, c)
    && (forall u, t {:trigger Midway(g, a, c, u, t)} :: u in g && t in g ==> Midway(g, a, c, u, t))
  }

  lemma MidRoundDescends(g: Adjacency, a: Network, c: Network)
    requires Sound(g) && Descending(g, a) && Between(g, a, c)
    ensures Descending(g, c)
  {
    forall u, t | u in g && t in g
      ensures NonNegative(g, c, u, t) && (u != t && DistAt(g, c, u, t) < INT_MAX ==> PointsDown(g, c, u, t))
    {
      assert Midway(g, a, c, u, t) && NonNegative(g, a, u, t);
      if v :| Offers(g, a, g.Keys, u, v, t) && At(g, c, u, t) == Offer(g, a, u, v, t) {
        assert Edge(g, u, v) && NonNegative(g, a, v, t);
        assert Midway(g, a, c, v, t);
      } else if u != t && DistAt(g, c, u, t) < INT_MAX {
        assert PointsDown(g, a, u, t);
        assert Midway(g, a, c, a[u].fwd[t], t);
      }
    }
  }

  lemma RoundDescends(g: Adjacency, a: Network, b: Network)
    requires Sound(g) && Descending(g, a) && Round(g, a, b, g.Keys)
    requires forall u, t {:trigger HasHop(g, b, u, t)} :: u in g && t in g ==> HasHop(g, b, u, t)
    ensures Descending(g, b)
  {
    forall u, t | u in g && t in g ensures Midway(g, a, b, u, t) {
      assert Least(g, a, g.Keys, u, t, At(g, b, u, t));
      assert HasHop(g, b, u, t);
    }
    MidRoundDescends(g, a, b);
  }

  /** The entry's next hop v, and what is left to travel from there. */
  lemma NextHopDown(g: Adjacency, a: Network, tables: map<int, map<int, int>>, u: int, t: int, ttl: nat)
    returns (v: int)
    requires Sound(g) && Descending(g, a) && TablesOf(a, tables) && u in g && t in g && u != t
    requires DistAt(g, a, u, t) < INT_MAX && ttl > 0
    ensures v in g[u] && v in g && g[u][v] > 0 && 0 <= DistAt(g, a, v, t) <= DistAt(g, a, u, t) - g[u][v]
    ensures Follow(tables, u, t, ttl) == [u] + Follow(tables, v, t, ttl - 1)
  {
    assert PointsDown(g, a, u, t);
    v := a[u].fwd[t];
    assert Edge(g, u, v) && NonNegative(g, a, v, t);
    FollowStep(tables, u, t, ttl);
  }

  lemma PrependHop(g: Adjacency, u: int, v: int, t: int, rest: seq<int>)
    requires u in g && v in g[u] && Joins(g, v, t, rest)
    ensures Joins(g, u, t, [u] + rest) && Cost(g, [u] + rest) == g[u][v] + Cost(g, rest)
  {
    assert ([u] + rest)[1..] == rest;
  }

  /** Following the entries of any such state reaches the destination at no more than the recorded distance. */
  lemma {:induction false} DescendingReaches(
      g: Adjacency, a: Network, tables: map<int, map<int, int>>, u: int, t: int, ttl: nat)
    requires Sound(g) && Descending(g, a) && TablesOf(a, tables) && u in g && t in g && DistAt(g, a, u, t) < INT_MAX
    requires ttl >= DistAt(g, a, u, t)
    ensures var p := Follow(tables, u, t, ttl); Joins(g, u, t, p) && Cost(g, p) <= DistAt(g, a, u, t)
    decreases ttl
  {
    assert NonNegative(g, a, u, t);
    if u != t && ttl > 0 {
      var v := NextHopDown(g, a, tables, u, t, ttl);
      DescendingReaches(g, a, tables, v, t, ttl - 1);
      PrependHop(g, u, v, t, Follow(tables, v, t, ttl - 1));
    } else if u != t {
      var v := NextHopDown(g, a, tables, u, t, 1);
    }
  }

  ghost predicate Falling(g: Adjacency, a: Network, t: int, p: seq<int>)
    requires Shaped(g, a) && t in g
  {
    && (forall i :: 0 <= i < |p| ==> p[i] in g)
    && (forall i, j :: 0 <= i < j < |p| ==> DistAt(g, a, p[i], t) > DistAt(g, a, p[j], t) && p[i] != p[j])
  }

  /** ... and meets ever smaller distances on the way, so no router twice. */
  lemma {:induction false} DescendingIsLoopFree(
      g: Adjacency, a: Network, tables: map<int, map<int, int>>, u: int, t: int, ttl: nat)
    requires Sound(g) && Descending(g, a) && TablesOf(a, tables) && u in g && t in g && DistAt(g, a, u, t) < INT_MAX
    ensures Falling(g, a, t, Follow(tables, u, t, ttl))
    decreases ttl
  {
    if u != t && ttl > 0 {
      var v := NextHopDown(g, a, tables, u, t, ttl);
      DescendingIsLoopFree(g, a, tables, v, t, ttl - 1);
    }
  }
}
