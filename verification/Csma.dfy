/** The event-driven simulator: stations wait in a heap, idle slots are skipped, and countdowns are changed in
    place. It counts what the slot-by-slot simulation counts. */
module Csma {
  import opened Slots
  import opened HeapOrder

  /** The source of random numbers. */
  class Rand {
    const draws: nat -> nat
    var drawn: nat

    constructor (draws: nat -> nat)
      ensures this.draws == draws && drawn == 0
    {
      this.draws := draws;
      drawn := 0;
    }

    method RandInt(hi: nat) returns (x: nat)
      modifies this
      ensures drawn == old(drawn) + 1 && x == draws(old(drawn)) % (hi + 1) <= hi
    {
      x := draws(drawn) % (hi + 1);
      drawn := drawn + 1;
    }
  }

  class Node {
    const id: nat
    const rList: seq<nat>
    const collCeil: nat
    var rId: nat
    var countDownVal: int
    var numColls: nat
    var numTrans: nat

    ghost function Value(): Station
      reads this
    {
      Station(countDownVal, rId, numColls, numTrans)
    }

    constructor (idx: nat, r: seq<nat>, m: nat, rng: Rand)
      requires |r| > m
      modifies rng
      ensures id == idx && rList == r && collCeil == m && rng.drawn == old(rng.drawn) + 1
      ensures Value() == Station(rng.draws(old(rng.drawn)) % (r[0] + 1), 0, 0, 0)
    {
      id, rList, collCeil := idx, r, m;
      rId, numColls, numTrans, countDownVal := 0, 0, 0, 0;
      new;
      RandBackOff(rng);
    }

    function HasTimeout(): bool
      reads this
    {
      countDownVal < 1
    }

    /** The order of the heap. */
    function Lt(other: Node): bool
      reads this, other
    {
      countDownVal < other.countDownVal || (countDownVal == other.countDownVal && id < other.id)
    }

    method RandBackOff(rng: Rand)
      requires rId < |rList|
      modifies `countDownVal, rng
      ensures rng.drawn == old(rng.drawn) + 1 && countDownVal == rng.draws(old(rng.drawn)) % (rList[rId] + 1)
    {
      countDownVal := rng.RandInt(rList[rId]);
    }

    method PermuteR()
      requires rId <= collCeil
      modifies `rId
      ensures rId == (if old(rId) + 1 > collCeil then 0 else old(rId) + 1) && rId <= collCeil
    {
      rId := if rId + 1 > collCeil then 0 else rId + 1;
    }

    method Collide(rng: Rand, ghost env: Env)
      requires Usable(env) && env.r == rList && env.m == collCeil && env.draws == rng.draws && rId <= collCeil
      modifies this, rng
      ensures rng.drawn == old(rng.drawn) + 1 && Value() == Collided(env, old(Value()), old(rng.drawn))
    {
      numColls := numColls + 1;
      PermuteR();
      RandBackOff(rng);
    }

    method SentPacket(rng: Rand, ghost env: Env)
      requires Usable(env) && env.r == rList && env.m == collCeil && env.draws == rng.draws && rId <= collCeil
      modifies this, rng
      ensures rng.drawn == old(rng.drawn) + 1 && Value() == Sent(env, old(Value()), old(rng.drawn))
    {
      numTrans := numTrans + 1;
      RandBackOff(rng);
    }
  }

  ghost function Ids(h: seq<Node>): (ids: seq<int>)
    ensures |ids| == |h| && forall i :: 0 <= i < |h| ==> ids[i] == h[i].id
  {
    seq(|h|, i requires 0 <= i < |h| => h[i].id)
  }

  lemma SwappedIds(h: seq<Node>, i: int, j: int)
    requires 0 <= i < |h| && 0 <= j < |h|
    ensures Ids(Swapped(h, i, j)) == Swapped(Ids(h), i, j)
  {
  }

  lemma NotInPrefix(h: seq<Node>, j: nat)
    requires Distinct(Ids(h)) && j < |h|
    ensures h[j] !in h[..j]
  {
    forall i | 0 <= i < j ensures h[i] != h[j] {
      assert Ids(h)[i] != Ids(h)[j];
    }
  }

  class CSMA {
    const numNodes: nat
    const packetLen: nat
    const rList: seq<nat>
    const collCeil: nat
    const tolTime: nat
    const rng: Rand
    var nodes: seq<Node>
    var sendingTime: int
    var idleTime: int
    var collTime: int
    /** The nodes by id. */
    ghost var stations: seq<Node>

    ghost function Env(): Env {
      Slots.Env(rList, collCeil, packetLen, rng.draws)
    }

    /** The nodes' fields, by id. */
    ghost predicate Shows(st: seq<Station>)
      reads this`stations, stations
    {
      && |st| == |stations|
      && (forall i {:trigger stations[i]} :: 0 <= i < |stations| ==>
            && stations[i].id == i && stations[i].rList == rList && stations[i].collCeil == collCeil
            && stations[i].Value() == st[i])
    }

    /** Every node of the list is filed under its id. */
    ghost predicate Among(h: seq<Node>)
      reads this`stations
    {
      forall i {:trigger h[i]} :: 0 <= i < |h| ==> h[i].id < |stations| && stations[h[i].id] == h[i]
    }

    /** What holds between runs: the list is a heap of all the nodes. */
    ghost predicate Valid(st: seq<Station>)
      reads this, stations
    {
      && Shows(st) && Usable(Env()) && Fit(Env(), st) && Among(nodes) && multiset(nodes) == multiset(stations)
      && IsHeap(st, Ids(nodes))
    }

    constructor (n: nat, l: nat, r: seq<nat>, m: nat, t: nat, rng: Rand)
      requires |r| > m && l >= 1
      modifies rng
      ensures this.rng == rng && Env() == Slots.Env(r, m, l, rng.draws) && tolTime == t
      ensures rng.drawn == old(rng.drawn) + n
      ensures |stations| == n && fresh(stations) && Valid(Fresh(Env(), n, old(rng.drawn)))
      ensures sendingTime == idleTime == collTime == 0
    {
      numNodes, packetLen, rList, collCeil, tolTime := n, l, r, m, t;
      this.rng := rng;
      nodes, stations := [], [];
      new;
      CreateNodes();
      ghost var st := Fresh(Env(), n, old(rng.drawn));
      FreshAreFit(Env(), n, old(rng.drawn));
      nodes := Heapify(nodes, st);
      sendingTime, idleTime, collTime := 0, 0, 0;
    }

    method AddNode(ghost st: seq<Station>) returns (node: Node)
      requires Shows(st) && Among(nodes) && stations == nodes && Usable(Env())
      modifies `nodes, `stations, rng
      ensures stations == nodes == old(nodes) + [node] && fresh(node)
      ensures rng.drawn == old(rng.drawn) + 1 && Among(nodes)
      ensures Shows(st + [Station(Backoff(Env(), 0, old(rng.drawn)), 0, 0, 0)])
    {
      node := new Node(|nodes|, rList, collCeil, rng);
      nodes, stations := nodes + [node], stations + [node];
    }

    /** One node after the other, each drawing its first back-off. */
    method CreateNodes()
      requires nodes == stations == [] && Usable(Env())
      modifies `nodes, `stations, rng
      ensures |nodes| == numNodes && stations == nodes && fresh(nodes) && rng.drawn == old(rng.drawn) + numNodes
      ensures Shows(Fresh(Env(), numNodes, old(rng.drawn))) && Among(nodes)
    {
      ghost var k := rng.drawn;
      for i := 0 to numNodes
        invariant |nodes| == i && stations == nodes && fresh(nodes) && rng.drawn == k + i
        invariant Shows(Fresh(Env(), i, k)) && Among(nodes)
      {
        var _ := AddNode(Fresh(Env(), i, k));
        assert Fresh(Env(), i, k) + [Station(Backoff(Env(), 0, k + i), 0, 0, 0)] == Fresh(Env(), i + 1, k);
      }
    }

    // ---------- The heap's operations ----------

    /** The first of the children of the node at pos. */
    method SmallerChild(h: seq<Node>, pos: nat, ghost st: seq<Station>) returns (child: nat)
      requires Shows(st) && Among(h) && 2 * pos + 1 < |h| && Listed(st, Ids(h))
      ensures child < |h| && (child == 2 * pos + 1 || child == 2 * pos + 2) && ChildrenAfter(st, Ids(h), child, pos)
    {
      child := 2 * pos + 1;
      if child + 1 < |h| && !h[child].Lt(h[child + 1]) {
        child := child + 1;
      }
    }

    /** Lets the node at pos change places with its first child, unless it is before both. */
    method SinkOnce(h0: seq<Node>, start: nat, pos: nat, ghost st: seq<Station>) returns (h: seq<Node>, next: nat)
      requires Shows(st) && Among(h0) && Sinking(st, Ids(h0), start, pos) && 2 * pos + 1 < |h0|
      ensures Among(h) && multiset(h) == multiset(h0) && |h| == |h0| && Sinking(st, Ids(h), start, next)
      ensures next > pos || (next == pos && ChildrenAfter(st, Ids(h), pos, pos))
    {
      var child := SmallerChild(h0, pos, st);
      if h0[child].Lt(h0[pos]) {
        SinkStep(st, Ids(h0), start, pos, child);
        SwappedIds(h0, pos, child);
        h, next := Swapped(h0, pos, child), child;
      } else {
        h, next := h0, pos;
      }
    }

    /** Moves the node at `start` down to where it belongs. */
    method SiftDown(h0: seq<Node>, start: nat, ghost st: seq<Station>) returns (h: seq<Node>)
      requires Shows(st) && Among(h0) && start < |h0| && HeapFrom(st, Ids(h0), start + 1)
      ensures Among(h) && multiset(h) == multiset(h0) && |h| == |h0| && HeapFrom(st, Ids(h), start)
    {
      h := h0;
      var pos := start;
      SinkStarts(st, Ids(h), start);
      while 2 * pos + 1 < |h|
        invariant Among(h) && multiset(h) == multiset(h0) && |h| == |h0|
        invariant Sinking(st, Ids(h), start, pos)
        decreases |h| - pos
      {
        var next;
        h, next := SinkOnce(h, start, pos, st);
        if next == pos {
          break;
        }
        pos := next;
      }
      SinkEnds(st, Ids(h), start, pos);
    }

    method Heapify(h0: seq<Node>, ghost st: seq<Station>) returns (h: seq<Node>)
      requires Shows(st) && Among(h0)
      ensures Among(h) && multiset(h) == multiset(h0) && |h| == |h0| && IsHeap(st, Ids(h))
    {
      h := h0;
      var i := |h| / 2;
      while i > 0
        invariant 0 <= i <= |h| / 2 && Among(h) && multiset(h) == multiset(h0) && |h| == |h0|
        invariant HeapFrom(st, Ids(h), i)
      {
        i := i - 1;
        h := SiftDown(h, i, st);
      }
    }

    method HeapPop(h0: seq<Node>, ghost st: seq<Station>) returns (x: Node, h: seq<Node>)
      requires Shows(st) && Among(h0) && h0 != [] && IsHeap(st, Ids(h0))
      ensures x == h0[0] && Among(h) && multiset(h) + multiset{x} == multiset(h0) && IsHeap(st, Ids(h))
    {
      var last := h0[|h0| - 1];
      h := h0[..|h0| - 1];
      assert h0 == h + [last];
      assert Ids(h) == Ids(h0)[..|h|];
      PrefixOfHeap(st, Ids(h0), |h|);
      if h == [] {
        x := last;
      } else {
        x := h[0];
        NewRootKeepsRest(st, Ids(h), last.id);
        assert Ids(h[0 := last]) == Ids(h)[0 := last.id];
        h := SiftDown(h[0 := last], 0, st);
      }
    }

    method HeapPush(h0: seq<Node>, x: Node, ghost st: seq<Station>) returns (h: seq<Node>)
      requires Shows(st) && Among(h0) && Among([x]) && IsHeap(st, Ids(h0))
      ensures Among(h) && multiset(h) == multiset(h0) + multiset{x} && IsHeap(st, Ids(h))
    {
      h := h0 + [x];
      assert [x][0] == x;
      assert Ids(h) == Ids(h0) + [x.id];
      RiseStarts(st, Ids(h0), x.id);
      var pos := |h0|;
      while pos > 0
        invariant 0 <= pos < |h| && Among(h) && multiset(h) == multiset(h0) + multiset{x}
        invariant Rising(st, Ids(h), pos)
      {
        var parent := Parent(pos);
        if !h[pos].Lt(h[parent]) {
          break;
        }
        RiseStep(st, Ids(h), pos);
        SwappedIds(h, pos, parent);
        h := Swapped(h, pos, parent);
        pos := parent;
      }
      RiseEnds(st, Ids(h), pos);
    }

    // ---------- One event ----------

    /** The list and `again` together are all the nodes; the list is a heap. */
    ghost predicate Holding(st: seq<Station>, again: seq<Node>)
      reads this, stations
    {
      && Shows(st) && Usable(Env()) && Fit(Env(), st) && Among(nodes) && Among(again)
      && multiset(nodes) + multiset(again) == multiset(stations) && IsHeap(st, Ids(nodes))
    }

    lemma NodesDiffer(st: seq<Station>, again: seq<Node>)
      requires Holding(st, again)
      ensures Distinct(Ids(nodes))
    {
      forall i, j | 0 <= i < j < |nodes| ensures nodes[i].id != nodes[j].id {
        forall a, b | 0 <= a < b < |stations| ensures stations[a] != stations[b] {
          assert stations[a].id == a && stations[b].id == b;
        }
        StillDistinct(nodes, stations, i, j);
      }
    }

    lemma EveryNodeIsSomewhere(st: seq<Station>, again: seq<Node>, k: int)
      requires Holding(st, again) && 0 <= k < |stations|
      ensures stations[k] in nodes || stations[k] in again
    {
      assert stations[k] in multiset(stations);
    }

    /** Nobody in the list is before the root. */
    lemma RootIsLeast(st: seq<Station>, again: seq<Node>, n: Node)
      requires Holding(st, again) && n in nodes
      ensures nodes != [] && n.id < |st| && nodes[0].id < |st| && Before(st, nodes[0].id, n.id)
    {
      var i :| 0 <= i < |nodes| && nodes[i] == n;
      RootIsFirst(st, Ids(nodes), i);
    }

    /** The root's countdown has changed to something that is not zero: it moves down. */
    method SinkRoot(again: seq<Node>, ghost st: seq<Station>)
      requires Shows(st) && Usable(Env()) && Fit(Env(), st) && Among(nodes) && Among(again) && nodes != []
      requires multiset(nodes) + multiset(again) == multiset(stations) && HeapFrom(st, Ids(nodes), 1)
      modifies `nodes
      ensures Holding(st, again) && multiset(nodes) == multiset(old(nodes))
    {
      nodes := SiftDown(nodes, 0, st);
    }

    /** The root leaves the list. */
    method SetAside(again: seq<Node>, ghost st: seq<Station>) returns (again': seq<Node>)
      requires Holding(st, again) && nodes != []
      modifies `nodes
      ensures Holding(st, again') && again' == again + [old(nodes)[0]]
    {
      var x;
      x, nodes := HeapPop(nodes, st);
      again' := again + [x];
    }

    method CollideNode(node: Node, ghost st: seq<Station>)
      requires Shows(st) && Usable(Env()) && Fit(Env(), st) && node.id < |stations| && stations[node.id] == node
      modifies rng, node
      ensures rng.drawn == old(rng.drawn) + 1
      ensures var t := st[node.id := Collided(Env(), st[node.id], old(rng.drawn))]; Shows(t) && Fit(Env(), t)
    {
      node.Collide(rng, Env());
    }

    /** The root collides: it leaves the list if it is at zero again, and moves down otherwise. */
    method CollideRoot(again: seq<Node>, ghost st: seq<Station>) returns (again': seq<Node>, ghost st': seq<Station>)
      requires Holding(st, again) && nodes != []
      requires st[nodes[0].id].cd == 0
      modifies `nodes, rng, stations
      ensures Holding(st', again') && rng.drawn == old(rng.drawn) + 1
      ensures var r := old(nodes)[0].id;
              && st' == st[r := Collided(Env(), st[r], old(rng.drawn))]
              && again' == (if st'[r].cd == 0 then again + [old(nodes)[0]] else again)
              && (st'[r].cd != 0 ==> multiset(nodes) == multiset(old(nodes)))
    {
      var root := nodes[0];
      NodesDiffer(st, again);
      st' := st[root.id := Collided(Env(), st[root.id], rng.drawn)];
      CollideNode(root, st);
      if root.HasTimeout() {
        SameCountdownKeepsHeap(st, Ids(nodes), root.id, st'[root.id]);
        again' := SetAside(again, st');
      } else {
        RootChangeKeepsRest(st, Ids(nodes), st'[root.id]);
        SinkRoot(again, st');
        again' := again;
      }
    }

    lemma TailIsAmong(h: seq<Node>)
      requires Among(h) && h != []
      ensures Among(h[1..])
    {
      forall i | 0 <= i < |h| - 1 ensures h[1..][i].id < |stations| && stations[h[1..][i].id] == h[1..][i] {
        assert h[1..][i] == h[i + 1];
      }
    }

    /** The first of the nodes set aside comes back into the list. */
    method PushFirst(again: seq<Node>, ghost st: seq<Station>)
      requires Holding(st, again) && again != []
      modifies `nodes
      ensures Holding(st, again[1..])
    {
      var x := again[0];
      assert again == [x] + again[1..];
      TailIsAmong(again);
      assert [x][0] == x;
      nodes := HeapPush(nodes, x, st);
    }

    /** The nodes that were at zero again come back into the list. */
    method PushBack(again: seq<Node>, ghost st: seq<Station>)
      requires Holding(st, again)
      modifies `nodes
      ensures Holding(st, [])
    {
      var rest := again;
      while rest != []
        invariant Holding(st, rest)
        decreases |rest|
      {
        PushFirst(rest, st);
        rest := rest[1..];
      }
    }

    ghost predicate AsideAt(st: seq<Station>, again: seq<Node>, i: nat, k: int)
      requires 0 <= k < |stations| == |st|
      reads this`stations
    {
      stations[k] in again <==> k < i && st[k].cd == 0
    }

    /** Below i, exactly the stations at zero are set aside; from i on, none is. */
    ghost predicate Aside(st: seq<Station>, again: seq<Node>, i: nat)
      reads this`stations
    {
      && |st| == |stations|
      && forall k {:trigger AsideAt(st, again, i, k)} :: 0 <= k < |stations| ==> AsideAt(st, again, i, k)
    }

    /** Where the collision stands: of the stations below i, those at zero again are set aside; the others are
        untouched. */
    ghost predicate Colliding(target: (seq<Station>, nat), st: seq<Station>, again: seq<Node>, i: nat)
      reads this, stations, rng
    {
      && Holding(st, again) && i <= |st| && CollideFrom(Env(), st, rng.drawn, i) == target
      && Aside(st, again, i)
    }

    lemma NodesAreApart(st: seq<Station>, again: seq<Node>, n: Node)
      requires Holding(st, again)
      ensures !(n in nodes && n in again)
    {
      forall a, b | 0 <= a < b < |stations| ensures stations[a] != stations[b] {
        assert stations[a].id == a && stations[b].id == b;
      }
      OnceInDistinct(stations, n);
      assert (multiset(nodes) + multiset(again))[n] <= 1;
    }

    /** When the root is at zero, nobody between i and its id is; when it is not, nobody from i on is. */
    lemma RootIsNext(target: (seq<Station>, nat), st: seq<Station>, again: seq<Node>, i: nat)
      requires Colliding(target, st, again, i) && nodes != []
      ensures nodes[0].id < |st|
      ensures st[nodes[0].id].cd == 0 ==> i <= nodes[0].id && forall k :: i <= k < nodes[0].id ==> st[k].cd != 0
      ensures st[nodes[0].id].cd != 0 ==> forall k :: i <= k < |st| ==> st[k].cd != 0
    {
      var root := nodes[0];
      if st[root.id].cd == 0 && root.id < i {
        assert AsideAt(st, again, i, root.id);
        NodesAreApart(st, again, root);
      }
      forall k | i <= k < |st| ensures k < root.id || st[root.id].cd != 0 ==> st[k].cd != 0 {
        assert AsideAt(st, again, i, k);
        EveryNodeIsSomewhere(st, again, k);
        assert stations[k].id == k;
        RootIsLeast(st, again, stations[k]);
      }
    }

    lemma AsideAfterTurn(st: seq<Station>, again: seq<Node>, i: nat, r: nat, s: Station)
      requires |st| == |stations| && i <= r < |st| && Aside(st, again, i)
      requires forall k :: i <= k < r ==> st[k].cd != 0
      requires forall k {:trigger stations[k]} :: 0 <= k < |stations| ==> stations[k].id == k
      ensures Aside(st[r := s], if s.cd == 0 then again + [stations[r]] else again, r + 1)
    {
      var again' := if s.cd == 0 then again + [stations[r]] else again;
      var st', j := st[r := s], r + 1;
      forall k | 0 <= k < |stations| ensures AsideAt(st', again', j, k) {
        assert AsideAt(st, again, i, k);
        assert stations[k].id == k && stations[r].id == r;
        assert stations[k] in again' <==> stations[k] in again || (s.cd == 0 && k == r);
      }
    }

    /** What a turn of the collision's loop will come to. */
    lemma TurnOnValues(target: (seq<Station>, nat), again: seq<Node>, st: seq<Station>, i: nat)
      returns (again': seq<Node>, st': seq<Station>, r: nat)
      requires Colliding(target, st, again, i) && nodes != [] && nodes[0].id < |st| && st[nodes[0].id].cd == 0
      ensures r == nodes[0].id && i <= r < |st| && st' == st[r := Collided(Env(), st[r], rng.drawn)]
      ensures again' == if st'[r].cd == 0 then again + [nodes[0]] else again
      ensures Aside(st', again', r + 1) && CollideFrom(Env(), st', rng.drawn + 1, r + 1) == target
    {
      RootIsNext(target, st, again, i);
      r := nodes[0].id;
      var s := Collided(Env(), st[r], rng.drawn);
      st' := st[r := s];
      again' := if s.cd == 0 then again + [nodes[0]] else again;
      CollideNext(Env(), st, rng.drawn, i, r);
      AsideAfterTurn(st, again, i, r, s);
    }

    /** One turn of the collision's loop. */
    method CollideTurn(ghost target: (seq<Station>, nat), again: seq<Node>, ghost st: seq<Station>, ghost i: nat)
      returns (again': seq<Node>, ghost st': seq<Station>, ghost j: nat)
      requires Colliding(target, st, again, i) && nodes != [] && nodes[0].id < |st| && st[nodes[0].id].cd == 0
      modifies `nodes, rng, stations
      ensures i < j && Colliding(target, st', again', j)
    {
      ghost var a, t, r := TurnOnValues(target, again, st, i);
      j := r + 1;
      again', st' := CollideRoot(again, st);
      assert Holding(st', again');
      assert st' == t;
      assert again' == a;
    }

    lemma AllSetAside(target: (seq<Station>, nat), st: seq<Station>, again: seq<Node>, i: nat)
      requires Colliding(target, st, again, i) && nodes == []
      ensures forall k :: 0 <= k < |target.0| ==> target.0[k].cd == 0
    {
      forall k | 0 <= k < |st| ensures k < i && st[k].cd == 0 {
        EveryNodeIsSomewhere(st, again, k);
        assert AsideAt(st, again, i, k);
      }
      if |st| > 0 { assert |st| - 1 < i; }
    }

    /** The collision as the program runs it. It breaks off, on an empty list, when every node is at zero again;
        otherwise it has done to each station what the scan in the order of ids does. */
    method CollideAll(ghost st0: seq<Station>) returns (ok: bool, ghost st: seq<Station>)
      requires Holding(st0, [])
      modifies `nodes, rng, stations
      ensures var (c, d) := CollideFrom(Env(), st0, old(rng.drawn), 0);
              (ok <==> !AllAtZero(c)) && (ok ==> Holding(st, []) && st == c && rng.drawn == d)
    {
      ghost var target, i := CollideFrom(Env(), st0, rng.drawn, 0), 0;
      var again: seq<Node> := [];
      st := st0;
      while nodes != [] && nodes[0].HasTimeout()
        invariant Colliding(target, st, again, i)
        decreases |stations| - i
      {
        assert nodes[0] in nodes;
        again, st, i := CollideTurn(target, again, st, i);
      }
      ok := nodes != [];
      if !ok {
        AllSetAside(target, st, again, i);
        return;
      }
      RootIsNext(target, st, again, i);
      SkipToZero(Env(), st, rng.drawn, i, |st|);
      assert st[nodes[0].id].cd != 0;
      PushBack(again, st);
    }

    // ---------- The run ----------

    /** The simulator's state as the slot-by-slot simulation would have it, with a free channel. */
    ghost function Now(st: seq<Station>): Plain
      reads this`sendingTime, this`idleTime, this`collTime, rng
    {
      Plain(st, rng.drawn, sendingTime, idleTime, collTime, -1, 0)
    }

    /** The simulator's state is that of the slot-by-slot simulation at moment x. */
    ghost predicate InStep(x: Moment)
      reads this, stations, rng
    {
      Holding(x.now.st, []) && |x.now.st| >= 3 && x.env == Env() && x.now == Now(x.now.st)
    }

    lemma NodesAreAll(st: seq<Station>)
      requires Holding(st, [])
      ensures |nodes| == |st|
    {
      assert multiset(nodes) == multiset(stations);
      assert |multiset(nodes)| == |nodes| && |multiset(stations)| == |stations|;
    }

    method SendNode(node: Node, ghost st: seq<Station>)
      requires Shows(st) && Usable(Env()) && Fit(Env(), st) && node.id < |stations| && stations[node.id] == node
      modifies rng, node
      ensures rng.drawn == old(rng.drawn) + 1
      ensures var t := st[node.id := Sent(Env(), st[node.id], old(rng.drawn))]; Shows(t) && Fit(Env(), t)
    {
      node.SentPacket(rng, Env());
    }

    /** The root has drawn a new back-off after its packet and goes down to its place. */
    method SendHead(ghost st: seq<Station>)
      requires Holding(st, []) && nodes != []
      modifies `nodes, rng, stations
      ensures rng.drawn == old(rng.drawn) + 1
      ensures var r := old(nodes)[0].id;
              r < |st| && st[r].rId < |rList| && Holding(st[r := Sent(Env(), st[r], old(rng.drawn))], [])
    {
      var root := nodes[0];
      NodesDiffer(st, []);
      ghost var s := Sent(Env(), st[root.id], rng.drawn);
      RootChangeKeepsRest(st, Ids(nodes), s);
      SendNode(root, st);
      SinkRoot([], st[root.id := s]);
    }

    /** The root has sent its packet. */
    method SendRoot(ghost st: seq<Station>) returns (ghost st': seq<Station>)
      requires Holding(st, []) && nodes != []
      modifies `nodes, `sendingTime, rng, stations
      ensures var r := old(nodes)[0].id;
              r < |st| && st[r].rId < |rList| && Holding(st', []) && Now(st') == AfterPacket(Env(), old(Now(st)), r)
    {
      ghost var r := nodes[0].id;
      st' := st[r := Sent(Env(), st[r], rng.drawn)];
      sendingTime := sendingTime + packetLen;
      SendHead(st);
    }

    /** The root's transmission is over. */
    method EndTransmission(ghost x: Moment) returns (ghost y: Moment)
      requires InStep(x) && nodes != [] && Alone(x.now.st, nodes[0].id)
      modifies `nodes, `sendingTime, rng, stations
      ensures InStep(y) && y.start == x.start && y.at == x.at + packetLen && Roused(y)
    {
      y := AfterSending(x, nodes[0].id);
      ghost var st := SendRoot(x.now.st);
    }

    /** Station i has counted down by n if it is among those done. */
    ghost predicate CountedAt(st: seq<Station>, n: int, done: seq<Node>, i: int)
      requires 0 <= i < |stations| == |st|
      reads this`stations, stations
    {
      && stations[i].id == i && stations[i].rList == rList && stations[i].collCeil == collCeil
      && stations[i].Value() == if stations[i] in done then st[i].(cd := st[i].cd - n) else st[i]
    }

    /** The nodes in the first part of the list have counted down by n. */
    ghost predicate Counting(st: seq<Station>, n: int, done: seq<Node>)
      reads this`stations, stations
    {
      && |st| == |stations|
      && (forall i {:trigger CountedAt(st, n, done, i)} :: 0 <= i < |stations| ==> CountedAt(st, n, done, i))
    }

    method CountNode(node: Node, ghost st: seq<Station>, n: int, ghost done: seq<Node>)
      requires Counting(st, n, done) && node !in done && node.id < |stations| && stations[node.id] == node
      modifies node
      ensures Counting(st, n, done + [node])
    {
      ghost var r := node.id;
      assert CountedAt(st, n, done, r);
      node.countDownVal := node.countDownVal - n;
      forall i | 0 <= i < |stations| ensures CountedAt(st, n, done + [node], i) {
        assert old(CountedAt(st, n, done, i));
        assert stations[i] == node ==> i == r;
      }
    }

    lemma NobodyCounted(st: seq<Station>, n: int)
      requires Shows(st)
      ensures Counting(st, n, [])
    {
      forall i | 0 <= i < |stations| ensures CountedAt(st, n, [], i) {
        assert stations[i].id == i;
      }
    }

    lemma AllCounted(st: seq<Station>, n: int)
      requires multiset(nodes) == multiset(stations) && Counting(st, n, nodes)
      ensures Shows(CountDown(st, n))
    {
      forall i | 0 <= i < |stations|
        ensures stations[i].id == i && stations[i].rList == rList && stations[i].collCeil == collCeil
        ensures stations[i].Value() == CountDown(st, n)[i]
      {
        assert CountedAt(st, n, nodes, i);
        assert stations[i] in multiset(stations);
      }
    }

    method CountAll(ghost st: seq<Station>, n: int)
      requires Holding(st, [])
      modifies stations
      ensures Shows(CountDown(st, n))
    {
      NodesDiffer(st, []);
      NobodyCounted(st, n);
      assert nodes[..0] == [];
      var j := 0;
      while j < |nodes|
        invariant 0 <= j <= |nodes| && Counting(st, n, nodes[..j])
      {
        NotInPrefix(nodes, j);
        CountNode(nodes[j], st, n, nodes[..j]);
        assert nodes[..j + 1] == nodes[..j] + [nodes[j]];
        j := j + 1;
      }
      assert nodes[..j] == nodes;
      AllCounted(st, n);
    }

    /** The idle slots that were skipped have passed. */
    method EndIdle(ghost x: Moment, n: nat) returns (ghost y: Moment)
      requires InStep(x) && NobodyBefore(x.now.st, n) && n >= 1
      modifies `idleTime, stations
      ensures InStep(y) && y.start == x.start && y.at == x.at + n && y.now.st == CountDown(x.now.st, n)
    {
      y := AfterIdle(x, n);
      CountDownKeepsHeap(x.now.st, Ids(nodes), n);
      idleTime := idleTime + n;
      CountAll(x.now.st, n);
    }

    /** What was begun at moment x, and the time at which it will be over. */
    ghost predicate Pending(x: Moment, time: nat, occupied: bool, nextIdle: int)
      reads this, stations, rng
    {
      && InStep(x) && nodes != []
      && (if occupied then time == x.at + packetLen && x.at < tolTime && Alone(x.now.st, nodes[0].id)
          else if nextIdle > 0 then
            && time == x.at + nextIdle && x.at < tolTime && Roused(x)
            && NobodyBefore(x.now.st, nextIdle) && x.now.st[nodes[0].id].cd == nextIdle
          else time == x.at <= tolTime && AtRest(x) && Roused(x))
    }

    /** The last slot was not idle, or some station is at zero, so the next one will not be. */
    ghost predicate IdlingIsOver(x: Place) {
      Roused(x) || exists k :: 0 <= k < |x.now.st| && x.now.st[k].cd == 0
    }

    /** The first half of the loop's body: what was begun is entered in the books. */
    method Settle(ghost x: Moment, ghost time: nat, occupied: bool, nextIdle: int) returns (ghost y: Moment)
      requires Pending(x, time, occupied, nextIdle)
      modifies `nodes, `sendingTime, `idleTime, rng, stations
      ensures InStep(y) && y.start == x.start && y.at == time && IdlingIsOver(y)
    {
      if occupied {
        y := EndTransmission(x);
      } else if nextIdle > 0 {
        ghost var first := nodes[0].id;
        y := EndIdle(x, nextIdle);
        assert y.now.st[first].cd == 0;
      } else {
        y := x;
      }
    }

    /** What the three nodes nearest the root tell about all of them. */
    lemma WhatRootTells(st: seq<Station>)
      requires Holding(st, []) && |st| >= 3
      ensures |nodes| == |st| && nodes[0].id < |st| && nodes[1].id < |st| && nodes[2].id < |st|
      ensures NobodyBefore(st, st[nodes[0].id].cd)
      ensures st[nodes[0].id].cd == 0 ==>
                (if st[nodes[1].id].cd == 0 || st[nodes[2].id].cd == 0 then Crowd(st) else Alone(st, nodes[0].id))
    {
      NodesAreAll(st);
      assert nodes[0] in nodes && nodes[1] in nodes && nodes[2] in nodes;
      NodesDiffer(st, []);
      var h := Ids(nodes);
      assert h[0] != h[1] && h[0] != h[2];
      forall k | 0 <= k < |st| ensures st[k].cd >= st[nodes[0].id].cd {
        EveryNodeIsSomewhere(st, [], k);
        assert stations[k].id == k;
        RootIsLeast(st, [], stations[k]);
      }
      if st[h[0]].cd == 0 {
        CollisionShowsAtChildren(st, h);
        if st[h[1]].cd == 0 || st[h[2]].cd == 0 {
          var c := if st[h[1]].cd == 0 then h[1] else h[2];
          assert c < h[0] || h[0] < c;
        } else {
          forall k | 0 <= k < |st| && k != h[0] ensures st[k].cd != 0 {
            EveryNodeIsSomewhere(st, [], k);
            assert stations[k].id == k;
          }
        }
      }
    }

    /** A collision is booked and carried out. */
    method BookCollision(ghost st: seq<Station>) returns (ok: bool)
      requires Holding(st, [])
      modifies `nodes, `collTime, rng, stations
      ensures var (c, d) := CollideFrom(Env(), st, old(rng.drawn), 0);
              && (ok <==> !AllAtZero(c))
              && (ok ==> Holding(c, []) && Now(c) == old(Now(st)).(st := c, drawn := d, coll := old(collTime) + 1))
    {
      collTime := collTime + 1;
      ghost var c;
      ok, c := CollideAll(st);
    }

    /** A collision takes one slot. */
    method Collision(ghost x: Moment) returns (ok: bool, ghost y: Moment)
      requires InStep(x) && Crowd(x.now.st)
      modifies `nodes, `collTime, rng, stations
      ensures ok ==> InStep(y) && y.start == x.start && y.at == x.at + 1 && AtRest(y) && Roused(y)
      ensures !ok ==> Sane(x.env, x.start) && JamsAt(x.env, x.start, x.at)
    {
      ghost var (c, d) := CollideFrom(Env(), x.now.st, rng.drawn, 0);
      y := Outcome(x, c, d);
      ok := BookCollision(x.now.st);
    }

    /** The second half of the loop's body: the root decides what is begun. */
    method Begin(ghost x: Moment, now: nat)
      returns (ok: bool, time: nat, occupied: bool, nextIdle: int, ghost y: Moment)
      requires InStep(x) && x.at == now < tolTime && IdlingIsOver(x)
      modifies `nodes, `collTime, rng, stations
      ensures ok ==> Pending(y, time, occupied, nextIdle) && y.start == x.start && time > now
      ensures !ok ==> Sane(x.env, x.start) && JamsAt(x.env, x.start, now)
    {
      WhatRootTells(x.now.st);
      assert nodes[0] in nodes && nodes[1] in nodes && nodes[2] in nodes;
      ok, time, occupied, y := true, now, false, x;
      nextIdle := nodes[0].countDownVal;
      if nextIdle > 0 {
        time := time + nextIdle;
      } else if nodes[1].HasTimeout() || nodes[2].HasTimeout() {
        time := time + 1;
        ok, y := Collision(x);
        if ok { NodesAreAll(y.now.st); }
      } else {
        time := time + packetLen;
        occupied := true;
      }
    }

    /** The loop's body. */
    method Advance(ghost x: Moment, time: nat, occupied: bool, nextIdle: int)
      returns (ok: bool, time': nat, occupied': bool, nextIdle': int, ghost y: Moment)
      requires Pending(x, time, occupied, nextIdle) && time < tolTime
      modifies `nodes, `sendingTime, `idleTime, `collTime, rng, stations
      ensures ok ==> Pending(y, time', occupied', nextIdle') && y.start == x.start && time' > time
      ensures !ok ==> Sane(Env(), x.start) && !NoJamUntil(Env(), x.start, tolTime)
    {
      ghost var z := Settle(x, time, occupied, nextIdle);
      ok, time', occupied', nextIdle', y := Begin(z, time);
    }

    /** The simulator's counters and nodes at the end, and those of the slot-by-slot simulation: equal, but for
        the idle slots the run ends in, which the countdowns have not been told of. */
    ghost predicate Agrees(start: Plain, st: seq<Station>)
      requires Sane(Env(), start)
      reads this, stations, rng
    {
      var end := Run(Env(), start, tolTime);
      && Holding(st, []) && rng.drawn == end.drawn
      && sendingTime == end.sending && idleTime == end.idle && collTime == end.coll
      && exists k: nat :: EndsIdle(Env(), start, tolTime, k) && end.st == CountDown(st, k)
    }

    /** The results of a run: every slot is booked once, sending time is a packet length per packet sent and what was
        sent of the last one, and every collision time slot hit two stations or more. */
    lemma ResultsAddUp(start: Plain, st: seq<Station>) returns (partly: int)
      requires Sane(Env(), start) && start.sender == -1 && Agrees(start, st)
      ensures sendingTime + idleTime + collTime == start.sending + start.idle + start.coll + tolTime
      ensures sendingTime - start.sending == packetLen * (TotalTrans(st) - TotalTrans(start.st)) + partly
      ensures 0 <= partly <= packetLen
      ensures TotalColls(st) - TotalColls(start.st) >= 2 * (collTime - start.coll)
    {
      var end := Run(Env(), start, tolTime);
      TimeIsConserved(Env(), start, tolTime);
      AlwaysAccounted(Env(), start, tolTime);
      var k: nat :| EndsIdle(Env(), start, tolTime, k) && end.st == CountDown(st, k);
      TotalsAfterCountDown(st, k);
      partly := if end.sender == -1 then 0 else packetLen - end.left;
    }

    /** Each node's retry is the number of its collisions modulo M + 1. */
    ghost predicate Lawful()
      reads this, stations
    {
      forall i {:trigger stations[i]} :: 0 <= i < |stations| ==>
        stations[i].rId == stations[i].numColls % (collCeil + 1)
    }

    lemma RetriesAddUp(start: Plain, st: seq<Station>)
      requires Sane(Env(), start) && RetriesAreCollisions(Env(), start.st) && Agrees(start, st)
      ensures Lawful()
    {
      var end := Run(Env(), start, tolTime);
      RunKeepsRetries(Env(), start, tolTime);
      var k: nat :| EndsIdle(Env(), start, tolTime, k) && end.st == CountDown(st, k);
      forall i | 0 <= i < |stations| ensures stations[i].rId == stations[i].numColls % (collCeil + 1) {
        assert stations[i].Value() == st[i] && end.st[i] == st[i].(cd := st[i].cd - k);
      }
    }

    /** The time is up during a transmission. */
    method FinishSending(ghost x: Moment, time: nat)
      requires Pending(x, time, true, 0) && time >= tolTime
      modifies `sendingTime
      ensures Sane(x.env, x.start) && NoJamUntil(x.env, x.start, tolTime) && x.env == Env() && Agrees(x.start, x.now.st)
    {
      CutInSending(x, nodes[0].id, tolTime);
      sendingTime := sendingTime + (tolTime - (time - packetLen));
    }

    /** The time is up while the stations count down. */
    method FinishIdle(ghost x: Moment, time: nat, nextIdle: int)
      requires Pending(x, time, false, nextIdle) && nextIdle > 0 && time >= tolTime
      modifies `idleTime
      ensures Sane(x.env, x.start) && NoJamUntil(x.env, x.start, tolTime) && x.env == Env() && Agrees(x.start, x.now.st)
    {
      CutInIdle(x, nextIdle, tolTime);
      idleTime := idleTime + (tolTime - (time - nextIdle));
    }

    /** What the last event contributes when the time is up before it is over. */
    method Finish(ghost x: Moment, time: nat, occupied: bool, nextIdle: int)
      requires Pending(x, time, occupied, nextIdle) && time >= tolTime
      modifies `sendingTime, `idleTime
      ensures Sane(x.env, x.start) && NoJamUntil(x.env, x.start, tolTime) && x.env == Env() && Agrees(x.start, x.now.st)
    {
      if occupied {
        FinishSending(x, time);
      } else if nextIdle > 0 {
        FinishIdle(x, time, nextIdle);
      } else {
        CutAtEvent(x);
      }
    }

    /** The event-driven run. It breaks off exactly when, in the slot-by-slot simulation, some collision before the
        end leaves every station at zero; otherwise it ends with that simulation's results. */
    method Simulate(ghost st0: seq<Station>) returns (ok: bool, ghost st: seq<Station>)
      requires Valid(st0) && |st0| >= 3
      modifies this, rng, stations
      ensures stations == old(stations) && Sane(Env(), old(Now(st0)))
      ensures ok <==> NoJamUntil(Env(), old(Now(st0)), tolTime)
      ensures ok ==> Valid(st) && Agrees(old(Now(st0)), st)
    {
      ghost var start := Now(st0);
      ghost var x := FirstMoment(Env(), start);
      NodesAreAll(st0);
      var time, occupied, nextIdle := 0, false, 0;
      ok, st := true, st0;
      while time < tolTime
        invariant stations == old(stations) && x.start == start && Pending(x, time, occupied, nextIdle)
        decreases tolTime - time
      {
        ok, time, occupied, nextIdle, x := Advance(x, time, occupied, nextIdle);
        if !ok { return; }
      }
      Finish(x, time, occupied, nextIdle);
      st := x.now.st;
    }
  }

  /** The program: a simulator is set up for a configuration and run once. */
  method SimulateConfig(n: nat, l: nat, r: seq<nat>, m: nat, t: nat, rng: Rand)
    returns (ok: bool, sim: CSMA, ghost st: seq<Station>)
    requires |r| > m && l >= 1 && n >= 3
    modifies rng
    ensures sim.Env() == Env(r, m, l, rng.draws) && Usable(sim.Env()) && sim.tolTime == t
    ensures ok <==> NoJamUntil(sim.Env(), Beginning(sim.Env(), n, old(rng.drawn)), t)
    ensures ok ==> sim.Agrees(Beginning(sim.Env(), n, old(rng.drawn)), st) && sim.Lawful()
  {
    ghost var k := rng.drawn;
    sim := new CSMA(n, l, r, m, t, rng);
    BeginsByLaw(sim.Env(), n, k);
    ghost var start := Beginning(sim.Env(), n, k);
    assert start == sim.Now(start.st);
    ok, st := sim.Simulate(start.st);
    if ok { sim.RetriesAddUp(start, st); }
  }
}
