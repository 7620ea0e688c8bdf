/** The medium-access simulation as one would state it: slot by slot, scanning all stations in the order of
    their ids. */
module Slots {

  /** Back-off bounds by retry, the retry ceiling, the packet length, and the random numbers in the order they are
      drawn. */
  datatype Env = Env(r: seq<nat>, m: nat, l: nat, draws: nat -> nat)

  ghost predicate Usable(env: Env) {
    |env.r| > env.m && env.l >= 1
  }

  datatype Station = Station(cd: int, rId: nat, colls: nat, trans: nat)

  ghost predicate Fit(env: Env, st: seq<Station>) {
    forall i :: 0 <= i < |st| ==> st[i].cd >= 0 && st[i].rId <= env.m
  }

  /** The k-th draw, for a station at retry `rId`. */
  function Backoff(env: Env, rId: nat, k: nat): (cd: nat)
    requires rId < |env.r|
    ensures cd <= env.r[rId]
  {
    env.draws(k) % (env.r[rId] + 1)
  }

  function Retry(env: Env, rId: nat): nat {
    if rId + 1 > env.m then 0 else rId + 1
  }

  function Collided(env: Env, s: Station, k: nat): Station
    requires Usable(env)
  {
    Station(Backoff(env, Retry(env, s.rId), k), Retry(env, s.rId), s.colls + 1, s.trans)
  }

  function Sent(env: Env, s: Station, k: nat): Station
    requires s.rId < |env.r|
  {
    Station(Backoff(env, s.rId, k), s.rId, s.colls, s.trans + 1)
  }

  /** n stations that have drawn their first back-off, the first of them with draw number k. */
  function Fresh(env: Env, n: nat, k: nat): (st: seq<Station>)
    requires Usable(env)
    ensures |st| == n && (forall i :: 0 <= i < n ==> st[i] == Station(Backoff(env, 0, k + i), 0, 0, 0))
  {
    seq(n, i requires 0 <= i < n => Station(Backoff(env, 0, k + i), 0, 0, 0))
  }

  lemma FreshAreFit(env: Env, n: nat, k: nat)
    requires Usable(env)
    ensures Fit(env, Fresh(env, n, k))
  {
    var st := Fresh(env, n, k);
    forall i | 0 <= i < n ensures st[i].cd >= 0 && st[i].rId <= env.m {
      assert st[i] == Station(Backoff(env, 0, k + i), 0, 0, 0);
    }
  }

  /** The first station from `from` on that has counted down; the number of stations if there is none. */
  function FirstZero(st: seq<Station>, from: nat): (z: nat)
    requires from <= |st|
    ensures from <= z <= |st| && (z < |st| ==> st[z].cd == 0)
    ensures forall k :: from <= k < z ==> st[k].cd != 0
    decreases |st| - from
  {
    if from == |st| || st[from].cd == 0 then from else FirstZero(st, from + 1)
  }

  /** Every station from `from` on that has counted down collides, in the order of their ids. */
  function CollideFrom(env: Env, st: seq<Station>, drawn: nat, from: nat): (r: (seq<Station>, nat))
    requires Usable(env) && from <= |st|
    ensures |r.0| == |st|
    decreases |st| - from
  {
    if from == |st| then (st, drawn)
    else if st[from].cd == 0 then CollideFrom(env, st[from := Collided(env, st[from], drawn)], drawn + 1, from + 1)
    else CollideFrom(env, st, drawn, from + 1)
  }

  function CountDown(st: seq<Station>, n: int): (c: seq<Station>)
    ensures |c| == |st| && forall i :: 0 <= i < |st| ==> c[i] == st[i].(cd := st[i].cd - n)
  {
    seq(|st|, i requires 0 <= i < |st| => st[i].(cd := st[i].cd - n))
  }

  /** The stations, how many numbers were drawn, the slots of each kind so far, and who is sending, if not -1,
      with the slots still to go. */
  datatype Plain = Plain(st: seq<Station>, drawn: nat, sending: int, idle: int, coll: int, sender: int, left: int)

  ghost predicate Sane(env: Env, p: Plain) {
    && Usable(env) && Fit(env, p.st)
    && (if p.sender == -1 then p.left == 0 else 0 <= p.sender < |p.st| && 0 <= p.left < env.l)
  }

  /** A transmission with no slots to go is over. */
  ghost function Settled(env: Env, p: Plain): Plain
    requires Sane(env, p)
  {
    if p.sender != -1 && p.left == 0 then
      p.(st := p.st[p.sender := Sent(env, p.st[p.sender], p.drawn)], drawn := p.drawn + 1, sender := -1)
    else p
  }

  /** A free channel and what the stations do with it for one slot. */
  ghost function FreeSlot(env: Env, p: Plain): Plain
    requires Sane(env, p) && p.sender == -1
  {
    var z := FirstZero(p.st, 0);
    if z == |p.st| then p.(st := CountDown(p.st, 1), idle := p.idle + 1)
    else if FirstZero(p.st, z + 1) == |p.st| then p.(sender := z, left := env.l - 1, sending := p.sending + 1)
    else
      var (st, drawn) := CollideFrom(env, p.st, p.drawn, 0);
      p.(st := st, drawn := drawn, coll := p.coll + 1)
  }

  ghost function Slot(env: Env, p: Plain): (q: Plain)
    requires Sane(env, p)
  {
    var s := Settled(env, p);
    if s.sender != -1 then s.(left := s.left - 1, sending := s.sending + 1) else FreeSlot(env, s)
  }

  lemma SettledIsSane(env: Env, p: Plain)
    requires Sane(env, p)
    ensures Sane(env, Settled(env, p)) && Settled(env, Settled(env, p)) == Settled(env, p)
    ensures Settled(env, p).sender != -1 ==> Settled(env, p).left > 0
  {
  }

  lemma {:induction false} CollidedAreFit(env: Env, st: seq<Station>, drawn: nat, from: nat)
    requires Usable(env) && Fit(env, st) && from <= |st|
    ensures Fit(env, CollideFrom(env, st, drawn, from).0)
    decreases |st| - from
  {
    if from < |st| {
      var next := if st[from].cd == 0 then st[from := Collided(env, st[from], drawn)] else st;
      CollidedAreFit(env, next, if st[from].cd == 0 then drawn + 1 else drawn, from + 1);
    }
  }

  lemma SlotIsSane(env: Env, p: Plain)
    requires Sane(env, p)
    ensures Sane(env, Slot(env, p))
  {
    SettledIsSane(env, p);
    var s := Settled(env, p);
    CollidedAreFit(env, s.st, s.drawn, 0);
  }

  /** The state after t slots. */
  ghost function Run(env: Env, p: Plain, t: nat): (q: Plain)
    requires Sane(env, p)
    ensures Sane(env, q)
  {
    if t == 0 then p else
      SlotIsSane(env, Run(env, p, t - 1));
      Slot(env, Run(env, p, t - 1))
  }

  // ---------- What the slots add up to ----------

  lemma SlotTakesOne(env: Env, p: Plain)
    requires Sane(env, p)
    ensures var q := Slot(env, p); q.sending + q.idle + q.coll == p.sending + p.idle + p.coll + 1
  {
  }

  /** Every slot is of exactly one kind. */
  lemma {:induction false} TimeIsConserved(env: Env, p: Plain, t: nat)
    requires Sane(env, p)
    ensures var q := Run(env, p, t); q.sending + q.idle + q.coll == p.sending + p.idle + p.coll + t
  {
    if t > 0 {
      TimeIsConserved(env, p, t - 1);
      SlotTakesOne(env, Run(env, p, t - 1));
    }
  }

  function TotalTrans(st: seq<Station>): nat {
    if st == [] then 0 else st[0].trans + TotalTrans(st[1..])
  }

  function TotalColls(st: seq<Station>): nat {
    if st == [] then 0 else st[0].colls + TotalColls(st[1..])
  }

  lemma {:induction false} TotalsAfterUpdate(st: seq<Station>, i: nat, s: Station)
    requires i < |st|
    ensures TotalTrans(st[i := s]) == TotalTrans(st) - st[i].trans + s.trans
    ensures TotalColls(st[i := s]) == TotalColls(st) - st[i].colls + s.colls
  {
    if i == 0 {
      assert st[0 := s][1..] == st[1..];
    } else {
      TotalsAfterUpdate(st[1..], i - 1, s);
      assert st[i := s][1..] == st[1..][i - 1 := s];
    }
  }

  lemma {:induction false} TotalsAfterCountDown(st: seq<Station>, n: int)
    ensures TotalTrans(CountDown(st, n)) == TotalTrans(st) && TotalColls(CountDown(st, n)) == TotalColls(st)
  {
    if st != [] {
      TotalsAfterCountDown(st[1..], n);
      assert CountDown(st, n)[1..] == CountDown(st[1..], n);
    }
  }

  /** The stations from `from` on that have counted down. */
  function Zeros(st: seq<Station>, from: nat): nat
    requires from <= |st|
    decreases |st| - from
  {
    if from == |st| then 0 else (if st[from].cd == 0 then 1 else 0) + Zeros(st, from + 1)
  }

  lemma {:induction false} ZerosElsewhere(st: seq<Station>, i: nat, s: Station, from: nat)
    requires i < from <= |st|
    ensures Zeros(st[i := s], from) == Zeros(st, from)
    decreases |st| - from
  {
    if from < |st| { ZerosElsewhere(st, i, s, from + 1); }
  }

  lemma {:induction false} ZerosFromFirst(st: seq<Station>, from: nat)
    requires from <= |st|
    ensures var z := FirstZero(st, from); Zeros(st, from) == if z == |st| then 0 else 1 + Zeros(st, z + 1)
    decreases |st| - from
  {
    if from < |st| && st[from].cd != 0 { ZerosFromFirst(st, from + 1); }
  }

  /** A collision costs each of its stations one collision and one draw, and nobody else anything. */
  lemma {:induction false} CollisionsAreCounted(env: Env, st: seq<Station>, drawn: nat, from: nat)
    requires Usable(env) && from <= |st|
    ensures var (c, d) := CollideFrom(env, st, drawn, from);
            && d == drawn + Zeros(st, from)
            && TotalColls(c) == TotalColls(st) + Zeros(st, from) && TotalTrans(c) == TotalTrans(st)
    decreases |st| - from
  {
    if from < |st| {
      if st[from].cd == 0 {
        var s := Collided(env, st[from], drawn);
        TotalsAfterUpdate(st, from, s);
        ZerosElsewhere(st, from, s, from + 1);
        CollisionsAreCounted(env, st[from := s], drawn + 1, from + 1);
      } else {
        CollisionsAreCounted(env, st, drawn, from + 1);
      }
    }
  }

  /** Sending time is a packet length per transmission completed and what has been sent of the one under way. */
  ghost predicate Accounted(env: Env, p: Plain, q: Plain) {
    && q.sending - p.sending
       == env.l * (TotalTrans(q.st) - TotalTrans(p.st)) + (if q.sender == -1 then 0 else env.l - q.left)
    && TotalColls(q.st) - TotalColls(p.st) >= 2 * (q.coll - p.coll)
  }

  lemma SettlingKeepsAccount(env: Env, p: Plain, q: Plain)
    requires Sane(env, q) && Accounted(env, p, q)
    ensures Accounted(env, p, Settled(env, q))
  {
    if q.sender != -1 && q.left == 0 {
      TotalsAfterUpdate(q.st, q.sender, Sent(env, q.st[q.sender], q.drawn));
      var n := TotalTrans(q.st) - TotalTrans(p.st);
      assert env.l * (n + 1) == env.l * n + env.l;
    }
  }

  lemma FreeSlotKeepsAccount(env: Env, p: Plain, q: Plain)
    requires Sane(env, q) && q.sender == -1 && Accounted(env, p, q)
    ensures Accounted(env, p, FreeSlot(env, q))
  {
    TotalsAfterCountDown(q.st, 1);
    ZerosFromFirst(q.st, 0);
    var z := FirstZero(q.st, 0);
    if z < |q.st| { ZerosFromFirst(q.st, z + 1); }
    CollisionsAreCounted(env, q.st, q.drawn, 0);
  }

  lemma {:induction false} AlwaysAccounted(env: Env, p: Plain, t: nat)
    requires Sane(env, p) && p.sender == -1
    ensures Accounted(env, p, Run(env, p, t))
  {
    if t > 0 {
      AlwaysAccounted(env, p, t - 1);
      var q := Run(env, p, t - 1);
      SettlingKeepsAccount(env, p, q);
      SettledIsSane(env, q);
      var s := Settled(env, q);
      if s.sender == -1 { FreeSlotKeepsAccount(env, p, s); }
    } else {
      assert env.l * 0 == 0;
    }
  }

  // ---------- What every slot does, told without the simulation's own steps ----------

  /** A station's retry is the number of its collisions, starting over after each M + 1. */
  ghost predicate RetriesAreCollisions(env: Env, st: seq<Station>) {
    forall i :: 0 <= i < |st| ==> st[i].rId == st[i].colls % (env.m + 1)
  }

  /** Draw number k as a countdown for a station with that many collisions. */
  ghost function Drawn(env: Env, colls: nat, k: nat): nat
    requires Usable(env)
  {
    env.draws(k) % (env.r[colls % (env.m + 1)] + 1)
  }

  /** The transmission that was under way is over. */
  ghost predicate HasEnded(p: Plain) {
    p.sender != -1 && p.left == 0
  }

  ghost predicate ChannelFree(p: Plain) {
    p.sender == -1 || p.left == 0
  }

  /** Station i's countdown as the slot begins: a new one if its transmission is over. */
  ghost function Countdown(env: Env, p: Plain, i: nat): int
    requires Usable(env) && i < |p.st|
  {
    if HasEnded(p) && i == p.sender then Drawn(env, p.st[i].colls, p.drawn) else p.st[i].cd
  }

  /** How many of the stations below n have counted down. */
  ghost function Waiting(env: Env, p: Plain, n: nat): nat
    requires Usable(env) && n <= |p.st|
  {
    if n == 0 then 0 else Waiting(env, p, n - 1) + if Countdown(env, p, n - 1) == 0 then 1 else 0
  }

  ghost function DrawnBefore(p: Plain): nat {
    if HasEnded(p) then p.drawn + 1 else p.drawn
  }

  /** Station i collides in this slot. */
  ghost predicate Collides(env: Env, p: Plain, i: nat)
    requires Usable(env) && i < |p.st|
  {
    ChannelFree(p) && Countdown(env, p, i) == 0 && Waiting(env, p, |p.st|) >= 2
  }

  /** What a slot does to station i: a packet more when its transmission is over; a collision more, and a new countdown
      for the retry that this makes it, when it is not alone in having counted down; one slot off the countdown when
      nobody has counted down. */
  ghost predicate StationGoesOn(env: Env, p: Plain, q: Plain, i: nat)
    requires Usable(env) && i < |p.st| == |q.st|
  {
    var a, b, n := p.st[i], q.st[i], Countdown(env, p, i);
    && b.trans == a.trans + (if HasEnded(p) && i == p.sender then 1 else 0)
    && b.colls == a.colls + (if Collides(env, p, i) then 1 else 0)
    && b.cd == (if Collides(env, p, i) then Drawn(env, b.colls, DrawnBefore(p) + Waiting(env, p, i))
                else if ChannelFree(p) && Waiting(env, p, |p.st|) == 0 then n - 1 else n)
  }

  /** What it does to the channel, the books and the random numbers. */
  ghost predicate ChannelGoesOn(env: Env, p: Plain, q: Plain)
    requires Usable(env)
  {
    var n := Waiting(env, p, |p.st|);
    if !ChannelFree(p) then
      q == p.(st := q.st, left := p.left - 1, sending := p.sending + 1)
    else if n == 0 then
      q == p.(st := q.st, drawn := DrawnBefore(p), sender := -1, left := 0, idle := p.idle + 1)
    else if n == 1 then
      && 0 <= q.sender < |p.st| && Countdown(env, p, q.sender) == 0
      && q == p.(st := q.st, drawn := DrawnBefore(p), sender := q.sender, left := env.l - 1, sending := p.sending + 1)
    else
      q == p.(st := q.st, drawn := DrawnBefore(p) + n, sender := -1, left := 0, coll := p.coll + 1)
  }

  ghost predicate GoesOn(env: Env, p: Plain, q: Plain)
    requires Usable(env)
  {
    && |q.st| == |p.st| && ChannelGoesOn(env, p, q)
    && (forall i {:trigger StationGoesOn(env, p, q, i)} :: 0 <= i < |p.st| ==> StationGoesOn(env, p, q, i))
  }

  lemma Multiple(d: int, n: int)
    requires n >= 1
    ensures d >= 1 ==> d * n >= n
    ensures d <= -1 ==> d * n <= -n
  {
  }

  lemma Remainder(q: nat, n: nat, r: nat)
    requires r < n
    ensures (q * n + r) % n == r
  {
    var x := q * n + r;
    var d, e := x / n - q, x % n - r;
    assert x == x / n * n + x % n;
    assert d * n == x / n * n - q * n;
    Multiple(d, n);
    assert d * n == -e;
  }

  lemma NextRetry(colls: nat, n: nat)
    requires n >= 1
    ensures (colls + 1) % n == if colls % n + 1 == n then 0 else colls % n + 1
  {
    var q, r := colls / n, colls % n;
    assert colls == q * n + r;
    if r + 1 == n {
      assert colls + 1 == (q + 1) * n + 0;
      Remainder(q + 1, n, 0);
    } else {
      Remainder(q, n, r + 1);
    }
  }

  lemma CollidedByLaw(env: Env, s: Station, k: nat)
    requires Usable(env) && s.rId == s.colls % (env.m + 1)
    ensures Collided(env, s, k)
         == Station(Drawn(env, s.colls + 1, k), (s.colls + 1) % (env.m + 1), s.colls + 1, s.trans)
  {
    NextRetry(s.colls, env.m + 1);
  }

  /** Those who have counted down collide, each with the draw that those before it leave it. */
  lemma {:induction false} CollidedAt(env: Env, st: seq<Station>, drawn: nat, from: nat, i: nat)
    requires Usable(env) && RetriesAreCollisions(env, st) && from <= |st| && i < |st|
    ensures Zeros(st, from) >= (if from <= i then Zeros(st, i) else 0)
    ensures var s := st[i];
            CollideFrom(env, st, drawn, from).0[i]
            == if from <= i && s.cd == 0 then
                 Station(Drawn(env, s.colls + 1, drawn + (Zeros(st, from) - Zeros(st, i))),
                         (s.colls + 1) % (env.m + 1), s.colls + 1, s.trans)
               else s
    decreases |st| - from
  {
    if from < |st| {
      if st[from].cd == 0 {
        var c := Collided(env, st[from], drawn);
        CollidedByLaw(env, st[from], drawn);
        ZerosElsewhere(st, from, c, from + 1);
        if from < i { ZerosElsewhere(st, from, c, i); }
        CollidedAt(env, st[from := c], drawn + 1, from + 1, i);
      } else {
        CollidedAt(env, st, drawn, from + 1, i);
      }
    }
  }

  /** A finished transmission settled is what the law takes the slot to begin with. */
  lemma SettledByLaw(env: Env, p: Plain, i: nat)
    requires Sane(env, p) && RetriesAreCollisions(env, p.st) && i < |p.st|
    ensures Sane(env, Settled(env, p)) && RetriesAreCollisions(env, Settled(env, p).st)
    ensures var s := Settled(env, p);
            && |s.st| == |p.st| && s.drawn == DrawnBefore(p) && s.st[i].cd == Countdown(env, p, i)
            && s.st[i].colls == p.st[i].colls
            && s.st[i].trans == p.st[i].trans + (if HasEnded(p) && i == p.sender then 1 else 0)
            && (ChannelFree(p) <==> s.sender == -1)
            && s == p.(st := s.st, drawn := s.drawn, sender := s.sender)
  {
    SettledIsSane(env, p);
  }

  /** How many of the stations below n are at zero. */
  ghost function ZerosBelow(st: seq<Station>, n: nat): nat
    requires n <= |st|
  {
    if n == 0 then 0 else ZerosBelow(st, n - 1) + if st[n - 1].cd == 0 then 1 else 0
  }

  lemma {:induction false} ZerosSplit(st: seq<Station>, n: nat)
    requires n <= |st|
    ensures Zeros(st, 0) == ZerosBelow(st, n) + Zeros(st, n)
  {
    if n > 0 { ZerosSplit(st, n - 1); }
  }

  lemma {:induction false} WaitingAreZeros(env: Env, p: Plain, n: nat)
    requires Sane(env, p) && RetriesAreCollisions(env, p.st) && n <= |p.st| == |Settled(env, p).st|
    ensures Waiting(env, p, n) == ZerosBelow(Settled(env, p).st, n)
  {
    if n > 0 {
      SettledByLaw(env, p, n - 1);
      WaitingAreZeros(env, p, n - 1);
    }
  }

  lemma CollidedFromStart(env: Env, st: seq<Station>, drawn: nat, i: nat)
    requires Usable(env) && RetriesAreCollisions(env, st) && i < |st|
    ensures var s := st[i];
            CollideFrom(env, st, drawn, 0).0[i]
            == if s.cd == 0 then
                 Station(Drawn(env, s.colls + 1, drawn + ZerosBelow(st, i)),
                         (s.colls + 1) % (env.m + 1), s.colls + 1, s.trans)
               else s
  {
    ZerosSplit(st, i);
    CollidedAt(env, st, drawn, 0, i);
  }

  /** None, one or several at zero. */
  lemma FreeSlotByCount(env: Env, s: Plain)
    requires Sane(env, s) && s.sender == -1
    ensures var n, q := ZerosBelow(s.st, |s.st|), FreeSlot(env, s);
            if n == 0 then q == s.(st := CountDown(s.st, 1), idle := s.idle + 1)
            else if n == 1 then
              0 <= q.sender < |s.st| && s.st[q.sender].cd == 0
              && q == s.(sender := q.sender, left := env.l - 1, sending := s.sending + 1)
            else q == s.(st := CollideFrom(env, s.st, s.drawn, 0).0, drawn := s.drawn + n, coll := s.coll + 1)
  {
    ZerosSplit(s.st, |s.st|);
    ZerosFromFirst(s.st, 0);
    var z := FirstZero(s.st, 0);
    if z < |s.st| { ZerosFromFirst(s.st, z + 1); }
    CollisionsAreCounted(env, s.st, s.drawn, 0);
  }

  lemma SlotOfStation(env: Env, p: Plain, i: nat)
    requires Sane(env, p) && RetriesAreCollisions(env, p.st) && i < |p.st| == |Slot(env, p).st|
    ensures StationGoesOn(env, p, Slot(env, p), i)
    ensures Slot(env, p).st[i].rId == Slot(env, p).st[i].colls % (env.m + 1)
  {
    var s := Settled(env, p);
    SettledByLaw(env, p, i);
    if s.sender == -1 {
      WaitingAreZeros(env, p, i);
      WaitingAreZeros(env, p, |p.st|);
      FreeSlotByCount(env, s);
      CollidedFromStart(env, s.st, s.drawn, i);
    }
  }

  lemma SlotOfChannel(env: Env, p: Plain)
    requires Sane(env, p) && RetriesAreCollisions(env, p.st)
    ensures |Slot(env, p).st| == |p.st| && ChannelGoesOn(env, p, Slot(env, p))
  {
    var s := Settled(env, p);
    SettledIsSane(env, p);
    if s.sender == -1 {
      WaitingAreZeros(env, p, |p.st|);
      FreeSlotByCount(env, s);
      var q := FreeSlot(env, s);
      if 0 <= q.sender < |p.st| { SettledByLaw(env, p, q.sender); }
    }
  }

  lemma {:induction false} RunKeepsRetries(env: Env, p: Plain, t: nat)
    requires Sane(env, p) && RetriesAreCollisions(env, p.st)
    ensures |Run(env, p, t).st| == |p.st| && RetriesAreCollisions(env, Run(env, p, t).st)
  {
    if t > 0 {
      RunKeepsRetries(env, p, t - 1);
      var q := Run(env, p, t - 1);
      SlotOfChannel(env, q);
      forall i | 0 <= i < |q.st| ensures Slot(env, q).st[i].rId == Slot(env, q).st[i].colls % (env.m + 1) {
        SlotOfStation(env, q, i);
      }
    }
  }

  /** In every slot of a run from a state in which retries and collisions fit together: they still do, so packets leave
      the retry alone, and the slot does what the law says to stations, channel, books and random numbers. */
  lemma SlotByLaw(env: Env, p: Plain, t: nat)
    requires Sane(env, p) && RetriesAreCollisions(env, p.st)
    ensures RetriesAreCollisions(env, Run(env, p, t).st) && GoesOn(env, Run(env, p, t), Run(env, p, t + 1))
  {
    RunKeepsRetries(env, p, t);
    var q := Run(env, p, t);
    SlotOfChannel(env, q);
    forall i | 0 <= i < |q.st| ensures StationGoesOn(env, q, Slot(env, q), i) {
      SlotOfStation(env, q, i);
    }
  }

  /** n stations that have drawn their first back-offs, from draw number k on, on a free channel. */
  ghost function Beginning(env: Env, n: nat, k: nat): (p: Plain)
    requires Usable(env)
    ensures Sane(env, p) && |p.st| == n
  {
    FreshAreFit(env, n, k);
    Plain(Fresh(env, n, k), k + n, 0, 0, 0, -1, 0)
  }

  lemma BeginsByLaw(env: Env, n: nat, k: nat)
    requires Usable(env)
    ensures RetriesAreCollisions(env, Beginning(env, n, k).st)
    ensures forall i :: 0 <= i < n ==> Beginning(env, n, k).st[i] == Station(Drawn(env, 0, k + i), 0, 0, 0)
  {
    var st := Fresh(env, n, k);
    forall i | 0 <= i < n ensures st[i] == Station(Drawn(env, 0, k + i), 0, 0, 0) {
      assert st[i] == Station(Backoff(env, 0, k + i), 0, 0, 0);
    }
  }

  /** Stations that start fresh have drawn in the order of their ids, and every slot of their run is by the law. */
  lemma RunByLaw(env: Env, n: nat, k: nat, t: nat)
    requires Usable(env)
    ensures var p := Beginning(env, n, k);
            && (forall i :: 0 <= i < n ==> p.st[i] == Station(Drawn(env, 0, k + i), 0, 0, 0))
            && RetriesAreCollisions(env, Run(env, p, t).st) && GoesOn(env, Run(env, p, t), Run(env, p, t + 1))
  {
    BeginsByLaw(env, n, k);
    SlotByLaw(env, Beginning(env, n, k), t);
  }

  // ---------- Slots that can be taken together ----------

  lemma {:induction false} RunSplits(env: Env, p: Plain, b: nat, k: nat)
    requires Sane(env, p)
    ensures Run(env, p, b + k) == Run(env, Run(env, p, b), k)
  {
    if k > 0 { RunSplits(env, p, b, k - 1); }
  }

  lemma {:induction false} RunSettles(env: Env, p: Plain, k: nat)
    requires Sane(env, p) && Sane(env, Settled(env, p)) && k >= 1
    ensures Run(env, p, k) == Run(env, Settled(env, p), k)
  {
    if k > 1 {
      RunSettles(env, p, k - 1);
    } else {
      SettledIsSane(env, p);
      assert Slot(env, p) == Slot(env, Settled(env, p));
      assert Run(env, p, 0) == p && Run(env, Settled(env, p), 0) == Settled(env, p);
    }
  }

  ghost predicate NobodyBefore(st: seq<Station>, m: int) {
    forall i :: 0 <= i < |st| ==> st[i].cd >= m
  }

  lemma IdleSlot(env: Env, s: Plain, k: nat)
    requires Sane(env, s) && s.sender == -1 && NobodyBefore(s.st, k + 1)
    ensures var p := s.(st := CountDown(s.st, k), idle := s.idle + k);
            Sane(env, p) && Slot(env, p) == s.(st := CountDown(s.st, k + 1), idle := s.idle + k + 1)
  {
    var c := CountDown(s.st, k);
    assert FirstZero(c, 0) == |c|;
    assert CountDown(c, 1) == CountDown(s.st, k + 1);
  }

  /** Nobody gets to zero for m slots: they pass idle. */
  lemma {:induction false} IdleSlots(env: Env, s: Plain, m: int, k: nat)
    requires Sane(env, s) && s.sender == -1 && NobodyBefore(s.st, m) && k <= m
    ensures Run(env, s, k) == s.(st := CountDown(s.st, k), idle := s.idle + k)
  {
    if k > 0 {
      IdleSlots(env, s, m, k - 1);
      IdleSlot(env, s, k - 1);
    } else {
      assert CountDown(s.st, 0) == s.st;
    }
  }

  /** Exactly station z has counted down. */
  ghost predicate Alone(st: seq<Station>, z: int) {
    0 <= z < |st| && st[z].cd == 0 && forall i :: 0 <= i < |st| && i != z ==> st[i].cd != 0
  }

  lemma AloneIsFound(st: seq<Station>, z: nat)
    requires Alone(st, z)
    ensures FirstZero(st, 0) == z && FirstZero(st, z + 1) == |st|
  {
  }

  /** A lone station sends for a packet's length. */
  lemma {:induction false} SendingSlots(env: Env, s: Plain, z: nat, k: nat)
    requires Sane(env, s) && s.sender == -1 && Alone(s.st, z) && 1 <= k <= env.l
    ensures Run(env, s, k) == s.(sender := z, left := env.l - k, sending := s.sending + k)
  {
    if k > 1 {
      SendingSlots(env, s, z, k - 1);
    } else {
      AloneIsFound(s.st, z);
      assert Run(env, s, 0) == s;
    }
  }

  /** Whoever is not at zero is skipped. */
  lemma {:induction false} SkipToZero(env: Env, st: seq<Station>, drawn: nat, from: nat, z: nat)
    requires Usable(env) && from <= z <= |st| && forall k :: from <= k < z ==> st[k].cd != 0
    ensures CollideFrom(env, st, drawn, from) == CollideFrom(env, st, drawn, z)
    decreases z - from
  {
    if from < z { SkipToZero(env, st, drawn, from + 1, z); }
  }

  /** The next station at zero collides. */
  lemma CollideNext(env: Env, st: seq<Station>, drawn: nat, from: nat, z: nat)
    requires Usable(env) && from <= z < |st| && st[z].cd == 0 && forall k :: from <= k < z ==> st[k].cd != 0
    ensures CollideFrom(env, st, drawn, from)
         == CollideFrom(env, st[z := Collided(env, st[z], drawn)], drawn + 1, z + 1)
  {
    SkipToZero(env, st, drawn, from, z);
  }

  /** A collision after which every station stands at zero again. */
  ghost predicate Jam(env: Env, p: Plain)
    requires Sane(env, p)
  {
    var s := Settled(env, p);
    && s.sender == -1 && |s.st| >= 2 && (forall i :: 0 <= i < |s.st| ==> s.st[i].cd == 0)
    && (forall i :: 0 <= i < |s.st| ==> CollideFrom(env, s.st, s.drawn, 0).0[i].cd == 0)
  }

  ghost predicate JamsAt(env: Env, p: Plain, t: nat)
    requires Sane(env, p)
  {
    Jam(env, Run(env, p, t))
  }

  ghost predicate NoJamUntil(env: Env, p: Plain, t: nat)
    requires Sane(env, p)
  {
    forall k {:trigger JamsAt(env, p, k)} :: 0 <= k < t ==> !JamsAt(env, p, k)
  }

  /** The state at time b with finished transmissions settled, at which the channel is free. */
  ghost predicate FreeAt(env: Env, p: Plain, b: nat, s: Plain) {
    Sane(env, p) && s == Settled(env, Run(env, p, b)) && s.sender == -1 && Sane(env, s)
  }

  lemma FromFree(env: Env, p: Plain, b: nat, s: Plain, k: nat)
    requires FreeAt(env, p, b, s) && k >= 1
    ensures Run(env, p, b + k) == Run(env, s, k)
  {
    RunSplits(env, p, b, k);
    RunSettles(env, Run(env, p, b), k);
  }

  /** m idle slots at once. */
  lemma IdleEvent(env: Env, p: Plain, b: nat, s: Plain, m: int, k: nat)
    requires FreeAt(env, p, b, s) && NobodyBefore(s.st, m) && 1 <= k <= m && |s.st| >= 1
    ensures Run(env, p, b + k) == s.(st := CountDown(s.st, k), idle := s.idle + k)
    ensures FreeAt(env, p, b + k, s.(st := CountDown(s.st, k), idle := s.idle + k))
  {
    FromFree(env, p, b, s, k);
    IdleSlots(env, s, m, k);
  }

  lemma NoJamWhileIdle(env: Env, p: Plain, b: nat, s: Plain, m: int)
    requires FreeAt(env, p, b, s) && NobodyBefore(s.st, m) && m >= 1 && |s.st| >= 1 && NoJamUntil(env, p, b)
    ensures NoJamUntil(env, p, b + m)
  {
    forall t | b <= t < b + m ensures !JamsAt(env, p, t) {
      if t > b {
        IdleEvent(env, p, b, s, m, t - b);
      }
      assert Settled(env, Run(env, p, t)).st[0].cd != 0;
    }
  }

  /** A packet's transmission at once. */
  lemma SendingEvent(env: Env, p: Plain, b: nat, s: Plain, z: nat, k: nat)
    requires FreeAt(env, p, b, s) && Alone(s.st, z) && 1 <= k <= env.l
    ensures Run(env, p, b + k) == s.(sender := z, left := env.l - k, sending := s.sending + k)
  {
    FromFree(env, p, b, s, k);
    SendingSlots(env, s, z, k);
  }

  /** A packet was sent and its station has drawn a new back-off. */
  function AfterPacket(env: Env, s: Plain, z: nat): Plain
    requires z < |s.st| && s.st[z].rId < |env.r|
  {
    s.(st := s.st[z := Sent(env, s.st[z], s.drawn)], drawn := s.drawn + 1, sending := s.sending + env.l)
  }

  lemma SendingEnds(env: Env, p: Plain, b: nat, s: Plain, z: nat)
    requires FreeAt(env, p, b, s) && Alone(s.st, z)
    ensures FreeAt(env, p, b + env.l, AfterPacket(env, s, z))
  {
    SendingEvent(env, p, b, s, z, env.l);
    SettledIsSane(env, Run(env, p, b + env.l));
  }

  lemma NoJamWhileSending(env: Env, p: Plain, b: nat, s: Plain, z: nat)
    requires FreeAt(env, p, b, s) && Alone(s.st, z) && |s.st| >= 2 && NoJamUntil(env, p, b)
    ensures NoJamUntil(env, p, b + env.l)
  {
    forall t | b <= t < b + env.l ensures !JamsAt(env, p, t) {
      if t > b {
        SendingEvent(env, p, b, s, z, t - b);
      } else {
        assert s.st[if z == 0 then 1 else 0].cd != 0;
      }
    }
  }

  /** At least two stations have counted down. */
  ghost predicate Crowd(st: seq<Station>) {
    exists i, j :: 0 <= i < j < |st| && st[i].cd == 0 && st[j].cd == 0
  }

  lemma CrowdCollides(env: Env, s: Plain)
    requires Sane(env, s) && s.sender == -1 && Crowd(s.st)
    ensures var (st, drawn) := CollideFrom(env, s.st, s.drawn, 0);
            Slot(env, s) == s.(st := st, drawn := drawn, coll := s.coll + 1)
  {
    var i, j :| 0 <= i < j < |s.st| && s.st[i].cd == 0 && s.st[j].cd == 0;
    var z := FirstZero(s.st, 0);
    assert z <= i && FirstZero(s.st, z + 1) <= j;
  }

  lemma CollisionEvent(env: Env, p: Plain, b: nat, s: Plain)
    requires FreeAt(env, p, b, s) && Crowd(s.st)
    ensures var (st, drawn) := CollideFrom(env, s.st, s.drawn, 0);
            && FreeAt(env, p, b + 1, s.(st := st, drawn := drawn, coll := s.coll + 1))
            && Run(env, p, b + 1) == s.(st := st, drawn := drawn, coll := s.coll + 1)
  {
    FromFree(env, p, b, s, 1);
    assert Run(env, s, 0) == s && Run(env, s, 1) == Slot(env, s);
    CrowdCollides(env, s);
    SlotIsSane(env, s);
  }

  lemma NoJamInCollision(env: Env, p: Plain, b: nat, s: Plain, i: nat)
    requires FreeAt(env, p, b, s) && NoJamUntil(env, p, b)
    requires i < |s.st| && CollideFrom(env, s.st, s.drawn, 0).0[i].cd != 0
    ensures NoJamUntil(env, p, b + 1)
  {
    forall t | 0 <= t < b + 1 ensures !JamsAt(env, p, t) {
      if t == b { assert !Jam(env, Run(env, p, b)); }
    }
  }

  lemma {:induction false} OthersKeepCounting(env: Env, st: seq<Station>, drawn: nat, from: nat, i: nat)
    requires Usable(env) && from <= |st| && i < |st| && st[i].cd != 0
    ensures CollideFrom(env, st, drawn, from).0[i] == st[i]
    decreases |st| - from
  {
    if from < |st| {
      if st[from].cd == 0 {
        OthersKeepCounting(env, st[from := Collided(env, st[from], drawn)], drawn + 1, from + 1, i);
      } else {
        OthersKeepCounting(env, st, drawn, from + 1, i);
      }
    }
  }

  /** When a collision leaves every station at zero, they were all in it. */
  lemma JamEvent(env: Env, p: Plain, b: nat, s: Plain)
    requires FreeAt(env, p, b, s) && Crowd(s.st)
    requires forall i :: 0 <= i < |s.st| ==> CollideFrom(env, s.st, s.drawn, 0).0[i].cd == 0
    ensures JamsAt(env, p, b)
  {
    forall i | 0 <= i < |s.st| ensures s.st[i].cd == 0 {
      if s.st[i].cd != 0 { OthersKeepCounting(env, s.st, s.drawn, 0, i); }
    }
  }

  // ---------- Moments at which the channel is free ----------

  /** `at` slots after `start` the simulation is in state `now`. */
  datatype Place = Place(env: Env, start: Plain, at: nat, now: Plain)

  /** At `at` the channel is free, and no collision before that has left every station at zero. */
  ghost predicate Followed(x: Place, t: int) {
    && Sane(x.env, x.start)
    && (0 <= t < x.at ==> !JamsAt(x.env, x.start, t))
    && (t == x.at ==> FreeAt(x.env, x.start, x.at, x.now))
  }

  ghost predicate Reached(x: Place) {
    forall t {:trigger Followed(x, t)} :: 0 <= t <= x.at ==> Followed(x, t)
  }

  lemma Facts(x: Moment)
    ensures FreeAt(x.env, x.start, x.at, x.now) && NoJamUntil(x.env, x.start, x.at)
  {
    assert Followed(x, x.at);
    forall t | 0 <= t < x.at ensures !JamsAt(x.env, x.start, t) {
      assert Followed(x, t);
    }
  }

  lemma ReachedBy(x: Place)
    requires FreeAt(x.env, x.start, x.at, x.now) && NoJamUntil(x.env, x.start, x.at)
    ensures Reached(x)
  {
    forall t | 0 <= t <= x.at ensures Followed(x, t) { }
  }

  const EMPTY := Plain([], 0, 0, 0, 0, -1, 0)

  type Moment = x: Place | Reached(x) ghost witness Place(Env([0], 0, 1, _ => 0), EMPTY, 0, EMPTY)

  /** Slot number i, counting from 1, was an idle one. */
  ghost predicate IdleAt(env: Env, p: Plain, i: nat)
    requires Sane(env, p)
  {
    i >= 1 && Run(env, p, i).idle > Run(env, p, i - 1).idle
  }

  /** The first t slots end in exactly k idle ones. */
  ghost predicate EndsIdle(env: Env, p: Plain, t: nat, k: nat)
    requires Sane(env, p)
  {
    && k <= t && !IdleAt(env, p, t - k)
    && (forall i {:trigger IdleAt(env, p, i)} :: t - k < i <= t ==> IdleAt(env, p, i))
  }

  lemma EndsIdleOnce(env: Env, p: Plain, t: nat, j: nat, k: nat)
    requires Sane(env, p) && EndsIdle(env, p, t, j) && EndsIdle(env, p, t, k)
    ensures j == k
  {
  }

  /** The slot just before was not an idle one. */
  ghost predicate Roused(x: Place) {
    Sane(x.env, x.start) && !IdleAt(x.env, x.start, x.at)
  }

  lemma IdleBefore(env: Env, p: Plain, b: nat, s: Plain)
    requires FreeAt(env, p, b, s)
    ensures Run(env, p, b).idle == s.idle
  {
  }

  /** No transmission has just ended. */
  ghost predicate AtRest(x: Place) {
    Sane(x.env, x.start) && Run(x.env, x.start, x.at) == x.now
  }

  lemma FirstMoment(env: Env, s: Plain) returns (x: Moment)
    requires Sane(env, s) && s.sender == -1
    ensures x == Place(env, s, 0, s) && AtRest(x) && Roused(x)
  {
    assert Run(env, s, 0) == s;
    var place := Place(env, s, 0, s);
    ReachedBy(place);
    x := place;
  }

  lemma AfterIdle(x: Moment, n: nat) returns (y: Moment)
    requires NobodyBefore(x.now.st, n) && n >= 1 && |x.now.st| >= 1
    ensures y == Place(x.env, x.start, x.at + n, x.now.(st := CountDown(x.now.st, n), idle := x.now.idle + n))
  {
    Facts(x);
    IdleEvent(x.env, x.start, x.at, x.now, n, n);
    NoJamWhileIdle(x.env, x.start, x.at, x.now, n);
    var place := Place(x.env, x.start, x.at + n, x.now.(st := CountDown(x.now.st, n), idle := x.now.idle + n));
    ReachedBy(place);
    y := place;
  }

  lemma IdleWhileSending(x: Moment, z: nat, t: nat)
    requires Alone(x.now.st, z) && x.at <= t <= x.at + x.env.l
    ensures Sane(x.env, x.start) && Run(x.env, x.start, t).idle == x.now.idle
  {
    Facts(x);
    if t == x.at {
      IdleBefore(x.env, x.start, x.at, x.now);
    } else {
      SendingEvent(x.env, x.start, x.at, x.now, z, t - x.at);
    }
  }

  lemma SendingIsNotIdle(x: Moment, z: nat, t: nat)
    requires Alone(x.now.st, z) && x.at < t <= x.at + x.env.l
    ensures Sane(x.env, x.start) && !IdleAt(x.env, x.start, t)
  {
    IdleWhileSending(x, z, t);
    IdleWhileSending(x, z, t - 1);
  }

  lemma IdleWhileIdle(x: Moment, n: nat, t: nat)
    requires NobodyBefore(x.now.st, n) && |x.now.st| >= 1 && x.at <= t <= x.at + n
    ensures Sane(x.env, x.start) && Run(x.env, x.start, t).idle == x.now.idle + (t - x.at)
  {
    Facts(x);
    if t == x.at {
      IdleBefore(x.env, x.start, x.at, x.now);
    } else {
      IdleEvent(x.env, x.start, x.at, x.now, n, t - x.at);
    }
  }

  lemma IdlingIsIdle(x: Moment, n: nat, t: nat)
    requires NobodyBefore(x.now.st, n) && |x.now.st| >= 1 && x.at < t <= x.at + n
    ensures Sane(x.env, x.start) && IdleAt(x.env, x.start, t)
  {
    IdleWhileIdle(x, n, t);
    IdleWhileIdle(x, n, t - 1);
  }

  lemma RousedBySending(x: Moment, z: nat)
    requires Alone(x.now.st, z) && Usable(x.env) && x.now.st[z].rId < |x.env.r|
    ensures Roused(Place(x.env, x.start, x.at + x.env.l, AfterPacket(x.env, x.now, z)))
  {
    SendingIsNotIdle(x, z, x.at + x.env.l);
  }

  lemma AfterSending(x: Moment, z: nat) returns (y: Moment)
    requires Alone(x.now.st, z) && |x.now.st| >= 2 && x.now.st[z].rId < |x.env.r|
    ensures y == Place(x.env, x.start, x.at + x.env.l, AfterPacket(x.env, x.now, z)) && Roused(y)
  {
    var place := Place(x.env, x.start, x.at + x.env.l, AfterPacket(x.env, x.now, z));
    Facts(x);
    assert FreeAt(place.env, place.start, place.at, place.now) by {
      SendingEnds(x.env, x.start, x.at, x.now, z);
    }
    RousedBySending(x, z);
    assert NoJamUntil(place.env, place.start, place.at) by {
      NoJamWhileSending(x.env, x.start, x.at, x.now, z);
    }
    ReachedBy(place);
    y := place;
  }

  lemma RousedByCollision(x: Moment)
    requires Usable(x.env) && Crowd(x.now.st)
    ensures Sane(x.env, x.start) && !IdleAt(x.env, x.start, x.at + 1)
  {
    Facts(x);
    IdleBefore(x.env, x.start, x.at, x.now);
    CollisionEvent(x.env, x.start, x.at, x.now);
  }

  lemma AfterCollision(x: Moment, st: seq<Station>, drawn: nat, i: nat) returns (y: Moment)
    requires Usable(x.env) && Crowd(x.now.st) && (st, drawn) == CollideFrom(x.env, x.now.st, x.now.drawn, 0)
    requires i < |st| && st[i].cd != 0
    ensures y == Place(x.env, x.start, x.at + 1, x.now.(st := st, drawn := drawn, coll := x.now.coll + 1))
    ensures AtRest(y) && Roused(y)
  {
    RousedByCollision(x);
    Facts(x);
    CollisionEvent(x.env, x.start, x.at, x.now);
    NoJamInCollision(x.env, x.start, x.at, x.now, i);
    var place := Place(x.env, x.start, x.at + 1, x.now.(st := st, drawn := drawn, coll := x.now.coll + 1));
    ReachedBy(place);
    y := place;
  }

  ghost predicate AllAtZero(st: seq<Station>) {
    forall i :: 0 <= i < |st| ==> st[i].cd == 0
  }

  lemma AfterJam(x: Moment)
    requires Usable(x.env) && Crowd(x.now.st)
    requires forall i :: 0 <= i < |x.now.st| ==> CollideFrom(x.env, x.now.st, x.now.drawn, 0).0[i].cd == 0
    ensures Sane(x.env, x.start) && JamsAt(x.env, x.start, x.at)
  {
    Facts(x);
    JamEvent(x.env, x.start, x.at, x.now);
  }

  /** What a collision comes to: the next moment, unless every station is at zero again. */
  lemma Outcome(x: Moment, st: seq<Station>, drawn: nat) returns (y: Moment)
    requires Usable(x.env) && Crowd(x.now.st) && (st, drawn) == CollideFrom(x.env, x.now.st, x.now.drawn, 0)
    ensures AllAtZero(st) ==> Sane(x.env, x.start) && JamsAt(x.env, x.start, x.at)
    ensures !AllAtZero(st) ==>
              && y == Place(x.env, x.start, x.at + 1, x.now.(st := st, drawn := drawn, coll := x.now.coll + 1))
              && AtRest(y) && Roused(y)
  {
    y := x;
    if AllAtZero(st) {
      AfterJam(x);
    } else {
      var k :| 0 <= k < |st| && st[k].cd != 0;
      y := AfterCollision(x, st, drawn, k);
    }
  }

  // ---------- Cut off at the end ----------

  /** At t, sent slots of a transmission or k idle slots after x, the simulation is as x left it but for these. */
  ghost predicate CutOff(x: Place, t: nat, sent: nat, k: nat) {
    && Sane(x.env, x.start) && NoJamUntil(x.env, x.start, t) && EndsIdle(x.env, x.start, t, k)
    && var end := Run(x.env, x.start, t);
       && end.st == CountDown(x.now.st, k) && end.drawn == x.now.drawn && end.coll == x.now.coll
       && end.sending == x.now.sending + sent && end.idle == x.now.idle + k
  }

  lemma TrailInIdle(x: Moment, n: nat, t: nat)
    requires NobodyBefore(x.now.st, n) && |x.now.st| >= 1 && x.at < t <= x.at + n && Roused(x)
    ensures EndsIdle(x.env, x.start, t, t - x.at)
  {
    forall i | x.at < i <= t ensures IdleAt(x.env, x.start, i) {
      IdlingIsIdle(x, n, i);
    }
  }

  lemma RunInIdle(x: Moment, n: nat, t: nat)
    requires NobodyBefore(x.now.st, n) && |x.now.st| >= 1 && x.at < t <= x.at + n
    ensures Sane(x.env, x.start) && NoJamUntil(x.env, x.start, t)
    ensures var k := t - x.at;
            Run(x.env, x.start, t) == x.now.(st := CountDown(x.now.st, k), idle := x.now.idle + k)
  {
    Facts(x);
    IdleEvent(x.env, x.start, x.at, x.now, n, t - x.at);
    NoJamWhileIdle(x.env, x.start, x.at, x.now, n);
  }

  lemma TrailInSending(x: Moment, z: nat, t: nat)
    requires Alone(x.now.st, z) && x.at < t <= x.at + x.env.l
    ensures Sane(x.env, x.start) && EndsIdle(x.env, x.start, t, 0)
  {
    SendingIsNotIdle(x, z, t);
  }

  lemma RunInSending(x: Moment, z: nat, t: nat)
    requires Alone(x.now.st, z) && |x.now.st| >= 2 && x.at < t <= x.at + x.env.l
    ensures Sane(x.env, x.start) && NoJamUntil(x.env, x.start, t)
    ensures var k := t - x.at;
            Run(x.env, x.start, t) == x.now.(sender := z, left := x.env.l - k, sending := x.now.sending + k)
  {
    Facts(x);
    SendingEvent(x.env, x.start, x.at, x.now, z, t - x.at);
    NoJamWhileSending(x.env, x.start, x.at, x.now, z);
  }

  lemma CutInIdle(x: Moment, n: nat, t: nat)
    requires NobodyBefore(x.now.st, n) && |x.now.st| >= 1 && x.at < t <= x.at + n && Roused(x)
    ensures CutOff(x, t, 0, t - x.at)
  {
    RunInIdle(x, n, t);
    TrailInIdle(x, n, t);
  }

  lemma CutInSending(x: Moment, z: nat, t: nat)
    requires Alone(x.now.st, z) && |x.now.st| >= 2 && x.at < t <= x.at + x.env.l
    ensures CutOff(x, t, t - x.at, 0)
  {
    RunInSending(x, z, t);
    TrailInSending(x, z, t);
    assert CountDown(x.now.st, 0) == x.now.st;
  }

  lemma CutAtEvent(x: Moment)
    requires AtRest(x) && Roused(x)
    ensures CutOff(x, x.at, 0, 0)
  {
    Facts(x);
    assert CountDown(x.now.st, 0) == x.now.st;
  }
}
