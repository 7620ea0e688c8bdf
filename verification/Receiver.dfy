/** The receiver: chunks that arrive in order are written out, later ones wait in a ring of WINDOW slots. */
module Receiver {
  import opened Packets

  const ZERO := Packet(0, 0, false, [])

  /** The ring (a 1 in `lens` marks a full slot), the next number expected, the output, and whether its end was seen. */
  datatype Reception = Reception(buffer: seq<Packet>, lens: seq<int>, next: int, out: File, done: bool)

  function Slot(i: int): (k: int)
    ensures 0 <= k < WINDOW
  {
    i % WINDOW
  }

  lemma SlotsDiffer(i: int, j: int)
    requires i < j
    ensures j < i + WINDOW ==> Slot(i) != Slot(j)
    ensures j == i + WINDOW ==> Slot(i) == Slot(j)
  {
  }

  predicate Shaped(r: Reception) {
    |r.buffer| == WINDOW && |r.lens| == WINDOW && r.next >= 0
  }

  predicate Full(r: Reception, i: int)
    requires |r.lens| == WINDOW
  {
    r.lens[Slot(i)] == 1
  }

  ghost function FullSlots(lens: seq<int>): nat {
    if lens == [] then 0 else (if lens[0] == 1 then 1 else 0) + FullSlots(lens[1..])
  }

  lemma {:induction false} EmptyingSlot(lens: seq<int>, k: nat)
    requires k < |lens| && lens[k] == 1
    ensures FullSlots(lens[k := 0]) == FullSlots(lens) - 1
  {
    if k == 0 {
      assert lens[0 := 0][1..] == lens[1..];
    } else {
      EmptyingSlot(lens[1..], k - 1);
      assert lens[k := 0][1..] == lens[1..][k - 1 := 0];
    }
  }

  /** The chunk expected next is taken from its slot. */
  function WriteOne(r: Reception): (w: Reception)
    requires Shaped(r) && Full(r, r.next)
    ensures Shaped(w)
  {
    var k := Slot(r.next);
    Reception(r.buffer[k := ZERO], r.lens[k := 0], r.next + 1, r.out + r.buffer[k].data, r.done || r.buffer[k].fin)
  }

  /** Writes what the ring holds from `next` on, up to the first empty slot. */
  function Flush(r: Reception): (w: Reception)
    requires Shaped(r)
    ensures Shaped(w) && w.next >= r.next && !Full(w, w.next)
    decreases FullSlots(r.lens)
  {
    if Full(r, r.next) then
      EmptyingSlot(r.lens, Slot(r.next));
      Flush(WriteOne(r))
    else r
  }

  /** The packet waits in its slot. */
  function Stored(r: Reception, p: Packet): Reception
    requires Shaped(r)
  {
    r.(buffer := r.buffer[Slot(p.seqNum) := p], lens := r.lens[Slot(p.seqNum) := 1])
  }

  /** The packet expected next is written at once. */
  function Appended(r: Reception, p: Packet): Reception {
    r.(next := r.next + 1, out := r.out + p.data, done := r.done || p.fin)
  }

  /** Until a packet numbered 0 has shown the sender's address, packets with other numbers are dropped. */
  predicate Known(r: Reception, p: Packet) {
    r.next > 0 || p.seqNum == 0
  }

  function Received(r: Reception, p: Packet): (w: Reception)
    requires Shaped(r)
    ensures Shaped(w) && w.next >= r.next
  {
    if !Known(r, p) then r
    else if p.seqNum == r.next then (if p.fin then Appended(r, p) else Flush(Appended(r, p)))
    else if p.seqNum > r.next then Stored(r, p)
    else r
  }

  // ---------- The ring holds the right chunks ----------

  ghost predicate Holds(r: Reception, f: File, i: int)
    requires Shaped(r) && |f| >= 1 && i >= 0
  {
    Full(r, i) ==> i < ChunkCount(|f|) && r.buffer[Slot(i)] == Chunk(f, i)
  }

  /** What was written is the file up to chunk `next`, and the slots ahead hold chunks of the window ahead. */
  ghost predicate InOrder(r: Reception, f: File) {
    && |f| >= 1 && Shaped(r) && r.next <= ChunkCount(|f|) && r.out == Prefix(f, r.next)
    && (r.done <==> r.next == ChunkCount(|f|))
    && (forall i {:trigger Holds(r, f, i)} :: r.next <= i < r.next + WINDOW ==> Holds(r, f, i))
  }

  /** ... and the chunk expected next is not among them: what holds between two packets. */
  ghost predicate Waiting(r: Reception, f: File) {
    InOrder(r, f) && !Full(r, r.next)
  }

  lemma AppendKeepsOrder(r: Reception, f: File, p: Packet)
    requires Waiting(r, f) && r.next < ChunkCount(|f|) && p == Chunk(f, r.next)
    ensures InOrder(Appended(r, p), f) && !Full(r, Appended(r, p).next - 1)
  {
    PrefixGrows(f, r.next);
    var w := Appended(r, p);
    forall i | w.next <= i < w.next + WINDOW ensures Holds(w, f, i) {
      if i < r.next + WINDOW { assert Holds(r, f, i); } else { SlotsDiffer(r.next, i); }
    }
  }

  lemma WriteKeepsOrder(r: Reception, f: File)
    requires InOrder(r, f) && Full(r, r.next)
    ensures InOrder(WriteOne(r), f)
  {
    assert Holds(r, f, r.next);
    PrefixGrows(f, r.next);
    var w := WriteOne(r);
    forall i | w.next <= i < w.next + WINDOW ensures Holds(w, f, i) {
      SlotsDiffer(r.next, i);
      if i < r.next + WINDOW { assert Holds(r, f, i); }
    }
  }

  lemma {:induction false} FlushKeepsOrder(r: Reception, f: File)
    requires InOrder(r, f)
    ensures Waiting(Flush(r), f)
    decreases FullSlots(r.lens)
  {
    if Full(r, r.next) {
      WriteKeepsOrder(r, f);
      EmptyingSlot(r.lens, Slot(r.next));
      FlushKeepsOrder(WriteOne(r), f);
    }
  }

  lemma StoreKeepsOrder(r: Reception, f: File, p: Packet)
    requires Waiting(r, f) && r.next < p.seqNum < ChunkCount(|f|) && p == Chunk(f, p.seqNum)
    requires p.seqNum < r.next + WINDOW
    ensures Waiting(Stored(r, p), f)
  {
    var w := Stored(r, p);
    SlotsDiffer(r.next, p.seqNum);
    forall i | w.next <= i < w.next + WINDOW ensures Holds(w, f, i) {
      assert Holds(r, f, i);
      if i < p.seqNum { SlotsDiffer(i, p.seqNum); } else if p.seqNum < i { SlotsDiffer(p.seqNum, i); }
    }
  }

  /** The slot a packet from beyond the window lands in is one the window itself uses. */
  lemma AliasedSlot(next: int, s: int) returns (i: int)
    requires s >= next + WINDOW
    ensures next <= i < next + WINDOW && i < s && Slot(i) == Slot(s)
  {
    i := next + (s - next) % WINDOW;
    assert s - i == (s - next) / WINDOW * WINDOW;
  }

  lemma EndIsEmpty(r: Reception, f: File, p: Packet)
    requires Waiting(r, f) && r.next + 1 == ChunkCount(|f|) && p == Chunk(f, r.next)
    ensures !Full(Appended(r, p), Appended(r, p).next)
  {
    AppendKeepsOrder(r, f, p);
    assert Holds(Appended(r, p), f, ChunkCount(|f|));
  }

  /** Any chunk of the file keeps output and ring in order if and only if it is less than WINDOW ahead of what is
      expected, or chunk 0 is still missing, when it is dropped. */
  lemma InWindowIsEnough(r: Reception, f: File, p: Packet)
    requires Waiting(r, f) && !r.done && 0 <= p.seqNum < ChunkCount(|f|) && p == Chunk(f, p.seqNum)
    ensures Waiting(Received(r, p), f) <==> p.seqNum < r.next + WINDOW || r.next == 0
  {
    if p.seqNum == r.next {
      AppendKeepsOrder(r, f, p);
      if !p.fin { FlushKeepsOrder(Appended(r, p), f); } else { EndIsEmpty(r, f, p); }
    } else if p.seqNum >= r.next + WINDOW && r.next > 0 {
      var i := AliasedSlot(r.next, p.seqNum);
      var w := Stored(r, p);
      assert !Holds(w, f, i);
    } else if p.seqNum > r.next > 0 {
      StoreKeepsOrder(r, f, p);
    }
  }

  lemma SlotOfOffset(n: int, k: int)
    requires 0 <= k < WINDOW
    ensures Slot(n + (k - n) % WINDOW) == k
  {
    assert k - n == (k - n) / WINDOW * WINDOW + (k - n) % WINDOW;
    assert n + (k - n) % WINDOW == k - (k - n) / WINDOW * WINDOW;
  }

  /** A full slot holds the one chunk of the window ahead that belongs there. */
  lemma SlotHoldsItsChunk(r: Reception, f: File, k: int) returns (i: int)
    requires Waiting(r, f) && 0 <= k < WINDOW && r.lens[k] == 1
    ensures r.next < i < r.next + WINDOW && i < ChunkCount(|f|) && Slot(i) == k && r.buffer[k] == Chunk(f, i)
    ensures forall j :: r.next <= j < r.next + WINDOW && Slot(j) == k ==> j == i
  {
    i := r.next + (k - r.next) % WINDOW;
    assert Slot(i) == k by { SlotOfOffset(r.next, k); }
    assert Holds(r, f, i);
    forall j | r.next <= j < r.next + WINDOW && Slot(j) == k ensures j == i {
      if j < i { SlotsDiffer(j, i); } else if i < j { SlotsDiffer(i, j); }
    }
  }

  /** The receiver as it starts. */
  function Ready(): (r: Reception)
    ensures Shaped(r)
  {
    Reception(seq(WINDOW, _ => ZERO), seq(WINDOW, _ => 0), 0, [], false)
  }

  lemma ReadyIsWaiting(f: File)
    requires |f| >= 1
    ensures Waiting(Ready(), f)
  {
    forall i | 0 <= i < WINDOW ensures Holds(Ready(), f, i) { }
  }

  /** Some slot is empty: counting full slots comes to an end. */
  ghost predicate HasRoom(r: Reception)
    requires |r.lens| == WINDOW
  {
    exists k :: 0 <= k < WINDOW && r.lens[k] != 1
  }

  /** The receiver gets done with the packet: if it is the one expected, and not the last, the slots after it are
      counted, which ends only if some slot is empty. */
  ghost predicate Responds(r: Reception, p: Packet) {
    Shaped(r) && (p.seqNum == r.next && !p.fin ==> HasRoom(r))
  }

  /** Where there is room, there is some within one turn of the ring; where there is none, every count goes on. */
  lemma RoomIsAhead(r: Reception)
    requires Shaped(r)
    ensures HasRoom(r) <==> exists i {:trigger Full(r, i)} :: r.next <= i < r.next + WINDOW && !Full(r, i)
    ensures !HasRoom(r) ==> forall i {:trigger Full(r, i)} :: i >= r.next ==> Full(r, i)
  {
    if k :| 0 <= k < WINDOW && r.lens[k] != 1 {
      var i := r.next + (k - r.next) % WINDOW;
      SlotOfOffset(r.next, k);
      assert !Full(r, i);
    }
    if i :| r.next <= i < r.next + WINDOW && !Full(r, i) {
      assert r.lens[Slot(i)] != 1;
    }
  }

  lemma WaitingResponds(r: Reception, f: File, p: Packet)
    requires Waiting(r, f)
    ensures Responds(r, p)
  {
    assert r.lens[Slot(r.next)] != 1;
  }

  // ---------- The order of arrival does not matter ----------

  /** Chunk n is written, or waits in its slot. */
  predicate Has(r: Reception, n: nat)
    requires |r.lens| == WINDOW
  {
    n < r.next || (n < r.next + WINDOW && Full(r, n))
  }

  lemma {:induction false} FlushKeepsChunks(r: Reception, n: nat)
    requires Shaped(r)
    ensures Has(Flush(r), n) <==> Has(r, n)
    decreases FullSlots(r.lens)
  {
    if Full(r, r.next) {
      var w := WriteOne(r);
      if r.next < n <= r.next + WINDOW { SlotsDiffer(r.next, n); }
      EmptyingSlot(r.lens, Slot(r.next));
      FlushKeepsChunks(w, n);
    }
  }

  /** A chunk that arrives is kept, and so is what was there before; nothing else appears. */
  lemma ArrivalIsKept(r: Reception, f: File, p: Packet, n: nat)
    requires Waiting(r, f) && !r.done && 0 <= p.seqNum < ChunkCount(|f|) && p == Chunk(f, p.seqNum)
    requires Known(r, p) && p.seqNum < r.next + WINDOW
    ensures Has(Received(r, p), n) <==> Has(r, n) || n == p.seqNum
  {
    if p.seqNum == r.next {
      var a := Appended(r, p);
      if n == r.next + WINDOW { SlotsDiffer(r.next, n); }
      assert Has(a, n) <==> Has(r, n) || n == p.seqNum;
      if !p.fin { FlushKeepsChunks(a, n); }
    } else if r.next < p.seqNum && r.next < n < r.next + WINDOW {
      if n < p.seqNum { SlotsDiffer(n, p.seqNum); } else if p.seqNum < n { SlotsDiffer(p.seqNum, n); }
    }
  }

  /** What a receiver makes of packets one after the other, until it stops. */
  function ReceivedAll(r: Reception, ps: seq<Packet>): (w: Reception)
    requires Shaped(r)
    ensures Shaped(w)
    decreases ps
  {
    if ps == [] || r.done then r else ReceivedAll(Received(r, ps[0]), ps[1..])
  }

  /** Chunks of the file, none of them as far ahead as `limit`. */
  ghost predicate ChunksBelow(f: File, ps: seq<Packet>, limit: int) {
    |f| >= 1 && forall i :: 0 <= i < |ps| ==>
      0 <= ps[i].seqNum < ChunkCount(|f|) && ps[i].seqNum < limit && ps[i] == Chunk(f, ps[i].seqNum)
  }

  predicate Delivers(ps: seq<Packet>, n: int) {
    exists i :: 0 <= i < |ps| && ps[i].seqNum == n
  }

  lemma {:induction false} ArrivalsAreKept(r: Reception, f: File, ps: seq<Packet>, limit: int, n: nat)
    requires Waiting(r, f) && r.next >= 1 && limit <= r.next + WINDOW && ChunksBelow(f, ps, limit)
    ensures Waiting(ReceivedAll(r, ps), f)
    ensures Has(ReceivedAll(r, ps), n) <==> Has(r, n) || Delivers(ps, n)
    decreases ps
  {
    if ps != [] {
      if r.done {
        if n < r.next + WINDOW { assert n >= r.next ==> Holds(r, f, n); }
      } else {
        InWindowIsEnough(r, f, ps[0]);
        ArrivalIsKept(r, f, ps[0], n);
        var rest := ps[1..];
        forall i | 0 <= i < |rest| ensures rest[i] == ps[i + 1] { }
        ArrivalsAreKept(Received(r, ps[0]), f, rest, limit, n);
        assert Delivers(ps, n) <==> n == ps[0].seqNum || Delivers(rest, n) by {
          if i :| 0 <= i < |rest| && rest[i].seqNum == n { assert ps[i + 1].seqNum == n; }
          if i :| 0 <= i < |ps| && ps[i].seqNum == n { assert i > 0 ==> rest[i - 1].seqNum == n; }
        }
      }
    }
  }

  /** Chunks of the window ahead may arrive in any order and any number of times: the number then expected is the least
      that neither arrived nor waited before, and the output is the file up to it. */
  lemma AnyOrderWillDo(r: Reception, f: File, ps: seq<Packet>)
    requires Waiting(r, f) && r.next >= 1 && ChunksBelow(f, ps, r.next + WINDOW)
    ensures var w := ReceivedAll(r, ps);
            && w.next >= r.next && !Has(r, w.next) && !Delivers(ps, w.next)
            && (forall n: nat {:trigger Delivers(ps, n)} :: r.next <= n < w.next ==> Has(r, n) || Delivers(ps, n))
            && w.out == Prefix(f, w.next) && (w.done <==> w.next == ChunkCount(|f|))
  {
    var w := ReceivedAll(r, ps);
    ArrivalsAreKept(r, f, ps, r.next + WINDOW, w.next);
    assert !Has(w, w.next);
    forall n: nat | r.next <= n < w.next ensures Has(r, n) || Delivers(ps, n) {
      ArrivalsAreKept(r, f, ps, r.next + WINDOW, n);
    }
  }

  /** Two sequences of arrivals with the same chunks in them come to the same. */
  lemma OrderIsForgotten(r: Reception, f: File, ps: seq<Packet>, qs: seq<Packet>)
    requires Waiting(r, f) && r.next >= 1
    requires ChunksBelow(f, ps, r.next + WINDOW) && ChunksBelow(f, qs, r.next + WINDOW)
    requires forall n: nat {:trigger Delivers(ps, n)} {:trigger Delivers(qs, n)} :: Delivers(ps, n) <==> Delivers(qs, n)
    ensures var v, w := ReceivedAll(r, ps), ReceivedAll(r, qs);
            v.next == w.next && v.out == w.out && v.done == w.done
  {
    var v, w := ReceivedAll(r, ps), ReceivedAll(r, qs);
    AnyOrderWillDo(r, f, ps);
    AnyOrderWillDo(r, f, qs);
    assert !Delivers(qs, v.next) && !Delivers(ps, w.next);
  }

  // ---------- What holds even when the ring is overrun ----------

  /** A full slot holds its own chunk or a later one that shares it. */
  ghost predicate HoldsLater(r: Reception, f: File, i: int)
    requires Shaped(r) && |f| >= 1 && i >= 0
  {
    Full(r, i) ==>
      var p := r.buffer[Slot(i)];
      i <= p.seqNum < ChunkCount(|f|) && Slot(p.seqNum) == Slot(i) && p == Chunk(f, p.seqNum)
  }

  /** The last number is written with the last chunk only. */
  ghost predicate Bounded(r: Reception, f: File) {
    |f| >= 1 && Shaped(r) && r.next <= ChunkCount(|f|) && (r.next == ChunkCount(|f|) ==> r.done)
  }

  /** Between two packets; nothing waits while chunk 0 is missing. */
  ghost predicate Tidy(r: Reception, f: File) {
    && Bounded(r, f) && (r.next == 0 ==> forall i {:trigger Full(r, i)} :: 0 <= i <= WINDOW ==> !Full(r, i))
    && (forall i {:trigger HoldsLater(r, f, i)} :: r.next < i <= r.next + WINDOW ==> HoldsLater(r, f, i))
  }

  /** While waiting packets are written. */
  ghost predicate Writable(r: Reception, f: File) {
    Bounded(r, f) && forall i {:trigger HoldsLater(r, f, i)} :: r.next <= i < r.next + WINDOW ==> HoldsLater(r, f, i)
  }

  lemma WaitingIsTidy(r: Reception, f: File)
    requires Waiting(r, f) && (r.next == 0 ==> r == Ready())
    ensures Tidy(r, f)
  {
    forall i | r.next < i <= r.next + WINDOW ensures HoldsLater(r, f, i) {
      if i < r.next + WINDOW { assert Holds(r, f, i); } else { SlotsDiffer(r.next, i); }
    }
  }

  lemma StoreKeepsTidy(r: Reception, f: File, p: Packet)
    requires Tidy(r, f) && 0 < r.next < p.seqNum < ChunkCount(|f|) && p == Chunk(f, p.seqNum)
    ensures Tidy(Stored(r, p), f)
  {
    var w := Stored(r, p);
    forall i | w.next < i <= w.next + WINDOW ensures HoldsLater(w, f, i) {
      assert HoldsLater(r, f, i);
      if p.seqNum < i { SlotsDiffer(p.seqNum, i); }
    }
  }

  lemma WriteKeepsWritable(r: Reception, f: File)
    requires Writable(r, f) && Full(r, r.next)
    ensures Writable(WriteOne(r), f) && r.out <= WriteOne(r).out && (r.done ==> WriteOne(r).done)
  {
    assert HoldsLater(r, f, r.next);
    var w := WriteOne(r);
    forall i | w.next <= i < w.next + WINDOW ensures HoldsLater(w, f, i) {
      SlotsDiffer(r.next, i);
      if i < r.next + WINDOW { assert HoldsLater(r, f, i); }
    }
  }

  lemma {:induction false} FlushKeepsTidy(r: Reception, f: File)
    requires Writable(r, f) && r.next > 0
    ensures Tidy(Flush(r), f) && r.out <= Flush(r).out && (r.done ==> Flush(r).done)
    decreases FullSlots(r.lens)
  {
    if Full(r, r.next) {
      WriteKeepsWritable(r, f);
      EmptyingSlot(r.lens, Slot(r.next));
      FlushKeepsTidy(WriteOne(r), f);
    } else {
      forall i | r.next < i <= r.next + WINDOW ensures HoldsLater(r, f, i) {
        if i == r.next + WINDOW { SlotsDiffer(r.next, i); }
      }
    }
  }

  lemma AppendIsWritable(r: Reception, f: File, p: Packet)
    requires Tidy(r, f) && r.next < ChunkCount(|f|) && p == Chunk(f, r.next)
    ensures Writable(Appended(r, p), f) && r.out <= Appended(r, p).out
  {
    var w := Appended(r, p);
    forall i | w.next <= i < w.next + WINDOW ensures HoldsLater(w, f, i) {
      assert HoldsLater(r, f, i);
    }
  }

  /** Whatever chunk arrives, nothing is taken back, and the count of chunks is not passed nor reached without the end
      of the file. */
  lemma ChunkKeepsTidy(r: Reception, f: File, p: Packet)
    requires Tidy(r, f) && !r.done && 0 <= p.seqNum < ChunkCount(|f|) && p == Chunk(f, p.seqNum)
    ensures Tidy(Received(r, p), f) && r.out <= Received(r, p).out
  {
    if p.seqNum == r.next {
      AppendIsWritable(r, f, p);
      var w := Appended(r, p);
      FlushKeepsTidy(w, f);
      if p.fin {
        assert HoldsLater(w, f, w.next);
        assert !Full(w, w.next);
      }
    } else if p.seqNum > r.next > 0 {
      StoreKeepsTidy(r, f, p);
    }
  }

  /** What was written is the file up to the chunk expected next, and the end is seen at the end only. */
  ghost predicate WrittenRight(r: Reception, f: File) {
    |f| >= 1 && 0 <= r.next <= ChunkCount(|f|) && r.out == Prefix(f, r.next) && (r.done ==> r.next == ChunkCount(|f|))
  }

  /** In a file of up to WINDOW + 2 chunks no other chunk shares a slot with one from 2 on. */
  lemma {:induction false} FlushWritesRight(r: Reception, f: File)
    requires Writable(r, f) && WrittenRight(r, f) && ChunkCount(|f|) <= WINDOW + 2 && (Full(r, r.next) ==> r.next >= 2)
    ensures WrittenRight(Flush(r), f)
    decreases FullSlots(r.lens)
  {
    if Full(r, r.next) {
      assert HoldsLater(r, f, r.next);
      SlotsDiffer(r.next, r.buffer[Slot(r.next)].seqNum + 1);
      assert r.buffer[Slot(r.next)] == Chunk(f, r.next);
      PrefixGrows(f, r.next);
      WriteKeepsWritable(r, f);
      EmptyingSlot(r.lens, Slot(r.next));
      FlushWritesRight(WriteOne(r), f);
    }
  }

  lemma ShortFileIsWrittenRight(r: Reception, f: File, p: Packet)
    requires Tidy(r, f) && WrittenRight(r, f) && !r.done && ChunkCount(|f|) <= WINDOW + 2
    requires 0 <= p.seqNum < ChunkCount(|f|) && p == Chunk(f, p.seqNum)
    ensures WrittenRight(Received(r, p), f)
  {
    if p.seqNum == r.next {
      PrefixGrows(f, r.next);
      AppendIsWritable(r, f, p);
      if !p.fin {
        assert Full(Appended(r, p), r.next + 1) == Full(r, r.next + 1);
        FlushWritesRight(Appended(r, p), f);
      }
    }
  }

  // ---------- A packet from beyond the window ----------

  /** The first number from 2 on that shares its slot with j. */
  function Landing(j: int): int {
    2 + (j - 2) % WINDOW
  }

  lemma LandingSharesSlot(j: int)
    requires j >= 2
    ensures 2 <= Landing(j) <= WINDOW + 1 && Landing(j) <= j && Slot(Landing(j)) == Slot(j)
    ensures j > WINDOW + 1 ==> Landing(j) <= j - WINDOW
  {
    assert j - 2 == (j - 2) / WINDOW * WINDOW + (j - 2) % WINDOW;
  }

  /** Chunks below m are written, chunk j waits in its slot, and nothing else does. */
  ghost predicate Overrun(r: Reception, f: File, j: int, m: int) {
    && |f| >= 1 && WINDOW + 1 < j < ChunkCount(|f|) && 1 <= m && Shaped(r)
    && r.next == m && !r.done && r.out == Prefix(f, m)
    && (forall i {:trigger Full(r, i)} :: m < i <= m + WINDOW ==> (Full(r, i) <==> Slot(i) == Slot(j)))
    && r.buffer[Slot(j)] == Chunk(f, j)
  }

  /** Chunk j was written where another chunk belongs. */
  ghost predicate Misplaced(r: Reception, f: File, j: int) {
    && |f| >= 1 && WINDOW + 1 < j < ChunkCount(|f|) && 0 <= Landing(j) && Shaped(r)
    && r.next == Landing(j) + 1 && r.out == Prefix(f, Landing(j)) + Chunk(f, j).data
    && (r.done <==> j + 1 == ChunkCount(|f|))
  }

  lemma OverrunHasRoom(r: Reception, f: File, j: int, m: int)
    requires Overrun(r, f, j, m)
    ensures HasRoom(r)
  {
    var i := if Slot(m + 1) == Slot(j) then m + 2 else m + 1;
    SlotsDiffer(m + 1, m + 2);
    assert !Full(r, i);
  }

  /** Writing the chunk at the slot that j took. */
  lemma WriteMisplaced(r: Reception, f: File, j: int)
    requires |f| >= 1 && WINDOW + 1 < j < ChunkCount(|f|) && Shaped(r) && r.next == Landing(j) && !r.done
    requires r.out == Prefix(f, r.next) && r.buffer[Slot(j)] == Chunk(f, j) && Full(r, r.next) && !Full(r, r.next + 1)
    ensures Misplaced(Flush(r), f, j)
  {
    LandingSharesSlot(j);
    SlotsDiffer(r.next, r.next + 1);
    assert !Full(WriteOne(r), r.next + 1);
  }

  /** The next chunk in order arrives. */
  lemma OverrunGoesOn(r: Reception, f: File, j: int, m: int)
    requires Overrun(r, f, j, m) && m < Landing(j)
    ensures var w := Received(r, Chunk(f, m));
            if m + 1 == Landing(j) then Misplaced(w, f, j) else Overrun(w, f, j, m + 1)
  {
    LandingSharesSlot(j);
    var a := Appended(r, Chunk(f, m));
    PrefixGrows(f, m);
    SlotsDiffer(m + 1, m + 2);
    assert Full(a, m + 1) <==> Full(r, m + 1);
    assert Full(a, m + 2) <==> Full(r, m + 2);
    if m + 1 == Landing(j) {
      WriteMisplaced(a, f, j);
    } else {
      SlotsDiffer(m + 1, Landing(j));
      forall i | m + 1 < i <= m + 1 + WINDOW ensures Full(a, i) <==> Slot(i) == Slot(j) {
        if i == m + 1 + WINDOW { SlotsDiffer(m + 1, i); }
        assert Full(a, i) == Full(r, i);
      }
    }
  }

  // ---------- Acknowledgements ----------

  /** The fin flag of the last packet flushed, or `fin` if none is. */
  function FlushedFin(r: Reception, fin: bool): bool
    requires Shaped(r)
    decreases FullSlots(r.lens)
  {
    if Full(r, r.next) then
      EmptyingSlot(r.lens, Slot(r.next));
      FlushedFin(WriteOne(r), r.buffer[Slot(r.next)].fin)
    else fin
  }

  const FAREWELLS := 45

  function Farewell(next: int): seq<AckPacket> {
    seq(FAREWELLS, _ => AckPacket(next, true))
  }

  /** What is sent back for a packet. */
  function AcksFor(r: Reception, p: Packet): seq<AckPacket>
    requires Shaped(r)
  {
    var w := Received(r, p);
    if !Known(r, p) then []
    else if p.seqNum == r.next && p.fin then Farewell(w.next)
    else if p.seqNum == r.next then
      [AckPacket(w.next, FlushedFin(Appended(r, p), p.fin))] + (if w.done then Farewell(w.next) else [])
    else [AckPacket(w.next, p.fin)]
  }

  /** Every acknowledgement is cumulative: it names the first chunk not yet written, the flushed ones included, and so
      never 0. */
  lemma AcksAreCumulative(r: Reception, p: Packet)
    requires Shaped(r)
    ensures AcksFor(r, p) != [] <==> Known(r, p)
    ensures AcksFor(r, p) != [] ==> Received(r, p).next >= 1
    ensures forall i :: 0 <= i < |AcksFor(r, p)| ==> AcksFor(r, p)[i].ackNum == Received(r, p).next
  {
  }

  /** Flushing stops at the end of the file, so the last flag flushed tells whether it was reached. */
  lemma {:induction false} FlushedFinTellsEnd(r: Reception, f: File, fin: bool)
    requires InOrder(r, f)
    ensures FlushedFin(r, fin) == if Full(r, r.next) then Flush(r).done else fin
    decreases FullSlots(r.lens)
  {
    if Full(r, r.next) {
      assert Holds(r, f, r.next);
      WriteKeepsOrder(r, f);
      EmptyingSlot(r.lens, Slot(r.next));
      FlushedFinTellsEnd(WriteOne(r), f, r.buffer[Slot(r.next)].fin);
    }
  }

  /** What is sent back: nothing before packet 0; otherwise one acknowledgement, flagged when the end was reached or the
      last chunk came; and 45 flagged ones when the receiver stops, the last chunk itself getting no other. */
  lemma AnswersExactly(r: Reception, f: File, p: Packet)
    requires Waiting(r, f) && !r.done && 0 <= p.seqNum < ChunkCount(|f|) && p == Chunk(f, p.seqNum)
    ensures var acks, w := AcksFor(r, p), Received(r, p);
            var last := p.seqNum + 1 == ChunkCount(|f|);
            && |acks| == (if r.next == 0 < p.seqNum then 0 else if !w.done then 1 else if last then 45 else 46)
            && (forall i :: 0 <= i < |acks| ==> acks[i].ackNum == w.next)
            && (forall i :: 0 <= i < |acks| ==>
                  (acks[i].fin <==> i > 0 || (if p.seqNum == r.next then w.done else last)))
  {
    if p.seqNum == r.next {
      AppendKeepsOrder(r, f, p);
      FlushedFinTellsEnd(Appended(r, p), f, p.fin);
    }
  }

  // ---------- The loops over the ring ----------

  lemma WriteOneElsewhere(r: Reception, i: int)
    requires Shaped(r) && Full(r, r.next) && r.next < i < r.next + WINDOW
    ensures Full(WriteOne(r), i) == Full(r, i) && WriteOne(r).buffer[Slot(i)] == r.buffer[Slot(i)]
  {
    SlotsDiffer(r.next, i);
  }

  /** Exactly the slots of r.next, ..., last - 1 are full before the first empty one. */
  ghost predicate Counted(r: Reception, last: int) {
    && Shaped(r) && r.next <= last < r.next + WINDOW && !Full(r, last)
    && (forall i {:trigger Full(r, i)} :: r.next <= i < last ==> Full(r, i))
  }

  lemma WriteKeepsCount(r: Reception, last: int)
    requires Counted(r, last) && r.next < last
    ensures Full(r, r.next) && Counted(WriteOne(r), last) && FullSlots(WriteOne(r).lens) < FullSlots(r.lens)
    ensures r.next < last - 1 ==> WriteOne(r).buffer[Slot(last - 1)] == r.buffer[Slot(last - 1)]
  {
    assert Full(r, r.next);
    EmptyingSlot(r.lens, Slot(r.next));
    forall i | r.next < i <= last ensures Full(WriteOne(r), i) == Full(r, i) {
      WriteOneElsewhere(r, i);
    }
    if r.next < last - 1 { WriteOneElsewhere(r, last - 1); }
  }

  /** What was counted is what gets written: the number acknowledged first is the number reached afterwards. */
  lemma {:induction false} CountIsFlushed(r: Reception, last: int, fin: bool)
    requires Counted(r, last)
    ensures Flush(r).next == last
    ensures FlushedFin(r, fin) == if r.next < last then r.buffer[Slot(last - 1)].fin else fin
    decreases last - r.next
  {
    if r.next < last {
      WriteKeepsCount(r, last);
      CountIsFlushed(WriteOne(r), last, r.buffer[Slot(r.next)].fin);
    }
  }

  /** The payloads in the slots of r.next, ..., last - 1, one after the other. */
  function Waited(r: Reception, last: int): File
    requires Shaped(r) && r.next <= last
    decreases last - r.next
  {
    if last == r.next then [] else Waited(r, last - 1) + r.buffer[Slot(last - 1)].data
  }

  lemma {:induction false} WaitedFromFirst(r: Reception, last: int)
    requires Shaped(r) && Full(r, r.next) && r.next < last < r.next + WINDOW
    ensures Waited(r, last) == r.buffer[Slot(r.next)].data + Waited(WriteOne(r), last)
    decreases last
  {
    if last - 1 > r.next {
      WaitedFromFirst(r, last - 1);
      SlotsDiffer(r.next, last - 1);
    } else {
      assert Waited(r, last - 1) == [] && Waited(WriteOne(r), last) == [];
    }
  }

  /** Whatever the ring holds: the full slots from `next` on are written in order and emptied, the end has been seen if
      one of them was flagged, and the other slots stay as they are. */
  lemma {:induction false} FlushExactly(r: Reception, last: int)
    requires Counted(r, last)
    ensures var w := Flush(r);
            && w.next == last && w.out == r.out + Waited(r, last)
            && (w.done <==> r.done || exists i {:trigger Slot(i)} :: r.next <= i < last && r.buffer[Slot(i)].fin)
            && (forall i {:trigger Full(w, i)} :: r.next <= i < last ==> !Full(w, i))
            && (forall i {:trigger Full(w, i)} :: last <= i < r.next + WINDOW ==>
                  Full(w, i) == Full(r, i) && w.buffer[Slot(i)] == r.buffer[Slot(i)])
    decreases last - r.next
  {
    if r.next < last {
      var x := WriteOne(r);
      WriteKeepsCount(r, last);
      WaitedFromFirst(r, last);
      FlushExactly(x, last);
      var w := Flush(x);
      forall i | r.next <= i < r.next + WINDOW
        ensures i < last ==> !Full(w, i)
        ensures last <= i ==> Full(w, i) == Full(r, i) && w.buffer[Slot(i)] == r.buffer[Slot(i)]
        ensures r.next < i < last ==> x.buffer[Slot(i)].fin == r.buffer[Slot(i)].fin
      {
        if i == r.next {
          SlotsDiffer(r.next, r.next + WINDOW);
          assert !Full(x, r.next + WINDOW);
          assert Full(w, r.next + WINDOW) == Full(x, r.next + WINDOW);
        } else {
          WriteOneElsewhere(r, i);
          assert i < last ==> !Full(w, i);
        }
      }
      assert r.buffer[Slot(r.next)].fin || r.done <==> x.done;
    }
  }

  /** What any packet does to any ring: what is expected is written together with all that waits behind it, what is
      ahead is kept in its slot, whatever that held before, and nothing else changes anything. */
  lemma ArrivalExactly(r: Reception, p: Packet, last: int)
    requires Shaped(r) && p.seqNum >= 0
    requires p.seqNum == r.next ==> if p.fin then last == r.next + 1 else Counted(Appended(r, p), last)
    ensures var w := Received(r, p);
            if p.seqNum == r.next then
              && w.next == last && w.out == r.out + p.data + Waited(Appended(r, p), last)
              && (w.done <==>
                    || r.done || p.fin
                    || exists i {:trigger Slot(i)} :: r.next < i < last && r.buffer[Slot(i)].fin)
            else if p.seqNum > r.next > 0 then
              && w.next == r.next && w.out == r.out && w.done == r.done
              && (forall k :: 0 <= k < WINDOW ==>
                    if k == p.seqNum % WINDOW then w.lens[k] == 1 && w.buffer[k] == p
                    else w.lens[k] == r.lens[k] && w.buffer[k] == r.buffer[k])
            else w == r
  {
    if p.seqNum == r.next && !p.fin {
      FlushExactly(Appended(r, p), last);
    }
  }

  /** The sequence number in the slot of chunk i is overwritten. */
  function Renumbered(r: Reception, i: int, n: int): (w: Reception)
    requires Shaped(r)
    ensures Shaped(w)
  {
    r.(buffer := r.buffer[Slot(i) := r.buffer[Slot(i)].(seqNum := n)])
  }

  /** What building the acknowledgement does to the number in the last slot is gone once the slot is written. */
  lemma {:induction false} RenumberingIsLost(r: Reception, last: int, n: int)
    requires Counted(r, last) && r.next < last
    ensures Flush(Renumbered(r, last - 1, n)) == Flush(r)
    decreases last - r.next
  {
    WriteKeepsCount(r, last);
    var x, w := Renumbered(r, last - 1, n), WriteOne(r);
    if r.next == last - 1 {
      assert WriteOne(x) == w;
    } else {
      SlotsDiffer(r.next, last - 1);
      assert WriteOne(x).buffer == Renumbered(w, last - 1, n).buffer;
      RenumberingIsLost(w, last, n);
    }
  }

  class ReceiverQ {
    const buffer: array<Packet>
    const buflen: array<int>
    var lastAckNum: int
    var output: File
    var recvFin: bool
    var peerKnown: bool

    ghost function Value(): Reception
      reads this, buffer, buflen
    {
      Reception(buffer[..], buflen[..], lastAckNum, output, recvFin)
    }

    /** The sender's address is known from the first packet written on. */
    ghost predicate Valid()
      reads this, buffer, buflen
    {
      Shaped(Value()) && (peerKnown <==> lastAckNum > 0)
    }

    constructor ()
      ensures Valid() && Value() == Ready() && fresh(buffer) && fresh(buflen)
    {
      buffer := new Packet[WINDOW](_ => ZERO);
      buflen := new int[WINDOW](_ => 0);
      lastAckNum, output, recvFin, peerKnown := 0, [], false, false;
      new;
      assert buffer[..] == Ready().buffer && buflen[..] == Ready().lens;
    }

    method MapToQueue(packet: Packet)
      requires Shaped(Value())
      modifies buffer, buflen
      ensures Value() == Stored(old(Value()), packet)
    {
      var k := Slot(packet.seqNum);
      buffer[k] := packet;
      buflen[k] := 1;
    }

    /** The number an acknowledgement may name: the first one whose slot is not full. */
    method CountFull() returns (last: int)
      requires Shaped(Value()) && HasRoom(Value())
      ensures Counted(Value(), last)
    {
      ghost var r := Value();
      RoomIsAhead(r);
      ghost var gap :| r.next <= gap < r.next + WINDOW && !Full(r, gap);
      last := lastAckNum;
      while buflen[Slot(last)] == 1
        invariant r.next <= last <= gap
        invariant forall i {:trigger Full(r, i)} :: r.next <= i < last ==> Full(r, i)
        decreases gap - last
      {
        assert Full(r, last);
        last := last + 1;
      }
      assert !Full(r, last);
    }

    /** One turn of the loop that writes the waiting packets. */
    method WriteSlot()
      requires Shaped(Value()) && Full(Value(), lastAckNum)
      modifies `lastAckNum, `output, `recvFin, buffer, buflen
      ensures Value() == WriteOne(old(Value()))
    {
      var k := Slot(lastAckNum);
      if buffer[k].fin { recvFin := true; }
      output := output + buffer[k].data;
      buflen[k] := 0;
      lastAckNum := lastAckNum + 1;
      buffer[k] := ZERO;
    }

    method WriteBuffered()
      requires Shaped(Value())
      modifies `lastAckNum, `output, `recvFin, buffer, buflen
      ensures Value() == Flush(old(Value()))
    {
      while buflen[Slot(lastAckNum)] == 1
        invariant Shaped(Value()) && Flush(Value()) == Flush(old(Value()))
        decreases FullSlots(Value().lens)
      {
        EmptyingSlot(Value().lens, Slot(lastAckNum));
        WriteSlot();
      }
    }

    /** Acknowledges what can be written and then writes it. */
    method CheckAndSendBuffer(packet: Packet) returns (ack: AckPacket)
      requires Shaped(Value()) && HasRoom(Value())
      modifies `lastAckNum, `output, `recvFin, buffer, buflen
      ensures Value() == Flush(old(Value()))
      ensures ack == AckPacket(lastAckNum, FlushedFin(old(Value()), packet.fin))
    {
      var last := CountFull();
      ghost var r := Value();
      CountIsFlushed(r, last, packet.fin);
      if last > lastAckNum {
        var k := Slot(last - 1);
        RenumberingIsLost(r, last, buffer[k].ackNum);
        ack := AckPacket(last, buffer[k].fin);
        buffer[k] := buffer[k].(seqNum := buffer[k].ackNum);
        assert Value() == Renumbered(r, last - 1, r.buffer[k].ackNum);
      } else {
        ack := AckPacket(last, packet.fin);
      }
      WriteBuffered();
    }

    method WaitForBreak() returns (acks: seq<AckPacket>)
      ensures acks == Farewell(lastAckNum)
    {
      acks := [];
      for i := 0 to FAREWELLS
        invariant |acks| == i && forall j :: 0 <= j < i ==> acks[j] == AckPacket(lastAckNum, true)
      {
        acks := acks + [AckPacket(lastAckNum, true)];
      }
    }

    /** The receive loop's work for a packet it cannot use: the last acknowledgement again, if there was one. */
    method Reject(fin: bool) returns (acks: seq<AckPacket>)
      ensures acks == if lastAckNum == 0 then [] else [AckPacket(lastAckNum, fin)]
    {
      if lastAckNum == 0 {
        return [];
      }
      acks := [AckPacket(lastAckNum, fin)];
    }

    /** The address test: packet 0 sets the address that later packets have to come from. */
    method RecvPacket(packet: Packet) returns (ok: bool)
      modifies `peerKnown
      ensures ok == peerKnown == (old(peerKnown) || packet.seqNum == 0)
    {
      if packet.seqNum == 0 {
        peerKnown := true;
      }
      ok := peerKnown;
    }

    /** A packet from the known address is written or saved, and acknowledged. */
    method Accept(packet: Packet) returns (acks: seq<AckPacket>)
      requires Responds(Value(), packet) && Known(Value(), packet) && !recvFin
      modifies `lastAckNum, `output, `recvFin, buffer, buflen
      ensures Value() == Received(old(Value()), packet) && acks == AcksFor(old(Value()), packet)
    {
      if packet.seqNum == lastAckNum {
        output := output + packet.data;
        lastAckNum := packet.seqNum + 1;
        if packet.fin {
          recvFin := true;
          acks := WaitForBreak();
          return;
        }
        var ack := CheckAndSendBuffer(packet);
        acks := [ack];
        if recvFin {
          var bye := WaitForBreak();
          acks := acks + bye;
        }
      } else if packet.seqNum > lastAckNum {
        MapToQueue(packet);
        acks := [AckPacket(lastAckNum, packet.fin)];
      } else {
        acks := [AckPacket(lastAckNum, packet.fin)];
      }
    }

    /** The receive loop's work for a packet of the sender's. */
    method Receive(packet: Packet) returns (acks: seq<AckPacket>)
      requires Valid() && Responds(Value(), packet) && !recvFin
      modifies this, buffer, buflen
      ensures Valid() && Value() == Received(old(Value()), packet) && acks == AcksFor(old(Value()), packet)
    {
      var ok := RecvPacket(packet);
      if ok {
        acks := Accept(packet);
      } else {
        acks := Reject(packet.fin);
      }
    }
  }
}
