/** Sender, receiver and a network between them that loses, duplicates and reorders whatever it carries. */
module Transfer {
  import opened Packets
  import opened Sender
  import opened Receiver

  /** A packet in flight stays in flight when it is delivered: it may arrive again, in any order, or never. */
  datatype Net = Net(s: Sender, r: Reception, data: set<Packet>, acks: set<AckPacket>)

  datatype Step =
    | Turn(w: Wakeup, n: nat)
    | Deliver(p: Packet)
    | Garble(fin: bool)
    | Lose(data: set<Packet>, acks: set<AckPacket>)
    | Close

  /** What the sender keeps sending once everything is acknowledged. */
  const CLOSING := Packet(0, 7, false, [])

  ghost function Start(f: File): Net {
    Net(Started(|f|), Ready(), {}, {})
  }

  /** The chunks of the file from `first` on, n of them. */
  ghost function Chunks(f: File, first: int, n: int): set<Packet>
    requires |f| >= 1
  {
    set i | first <= i < first + n && 0 <= i < ChunkCount(|f|) :: Chunk(f, i)
  }

  ghost predicate InFlight(acks: set<AckPacket>, n: int) {
    exists k :: k in acks && k.ackNum == n
  }

  /** The sender hears acknowledgements in flight, no more than its buffer holds, and sends up to its window; only a
      running timer expires. */
  ghost predicate MaySend(f: File, a: Net, w: Wakeup, n: nat) {
    && |f| >= 1 && a.s.base < a.s.total && |w.acks| <= WINDOW
    && (forall i :: 0 <= i < |w.acks| ==> InFlight(a.acks, w.acks[i]))
    && (w.timerRead ==> a.s.running && w.expirations >= 1)
    && n <= Burst(Digested(a.s, w))
  }

  /** A packet is delivered when the receiver gets done with it. */
  ghost predicate Enabled(f: File, a: Net, e: Step) {
    match e
    case Turn(w, n) => MaySend(f, a, w, n)
    case Deliver(p) => p in a.data && !a.r.done && Responds(a.r, p)
    case Garble(_) => !a.r.done
    case Lose(_, _) => true
    case Close => a.s.base >= a.s.total
  }

  ghost function Stepped(f: File, a: Net, e: Step): Net
    requires Enabled(f, a, e)
  {
    match e
    case Turn(w, n) =>
      var t := Digested(a.s, w);
      a.(s := AfterSending(t, n), data := a.data + Chunks(f, Next(t), n))
    case Deliver(p) =>
      a.(r := Received(a.r, p), acks := a.acks + (set k | k in AcksFor(a.r, p)))
    case Garble(fin) =>
      a.(acks := a.acks + if a.r.next == 0 then {} else {AckPacket(a.r.next, fin)})
    case Lose(data, acks) => a.(data := a.data - data, acks := a.acks - acks)
    case Close => a.(data := a.data + {CLOSING})
  }

  ghost predicate Possible(f: File, a: Net, run: seq<Step>)
    decreases run
  {
    run == [] || (Enabled(f, a, run[0]) && Possible(f, Stepped(f, a, run[0]), run[1..]))
  }

  ghost function End(f: File, a: Net, run: seq<Step>): Net
    requires Possible(f, a, run)
    decreases run
  {
    if run == [] then a else End(f, Stepped(f, a, run[0]), run[1..])
  }

  /** The first number the receiver's ring may have no room for: WINDOW past the base, which counts as 1 at least,
      because nothing is stored before chunk 0 is written. */
  function Reach(base: int): int {
    Max(base, 1) + WINDOW
  }

  /** Nothing is sent beyond the ring's reach. */
  ghost predicate WithinRing(a: Net, e: Step) {
    e.Turn? && e.n > 0 ==> var t := Digested(a.s, e.w); Next(t) + e.n <= Reach(t.base)
  }

  /** No step of the run overruns the ring. */
  ghost predicate Tame(f: File, a: Net, run: seq<Step>)
    requires Possible(f, a, run)
    decreases run
  {
    run == [] || (WithinRing(a, run[0]) && Tame(f, Stepped(f, a, run[0]), run[1..]))
  }

  lemma StepFirst(f: File, a: Net, e: Step, rest: seq<Step>)
    requires Enabled(f, a, e) && Possible(f, Stepped(f, a, e), rest)
    ensures Possible(f, a, [e] + rest) && End(f, a, [e] + rest) == End(f, Stepped(f, a, e), rest)
    ensures Tame(f, a, [e] + rest) <==> WithinRing(a, e) && Tame(f, Stepped(f, a, e), rest)
  {
    assert ([e] + rest)[1..] == rest;
  }

  lemma {:induction false} RunsJoin(f: File, a: Net, run: seq<Step>, rest: seq<Step>)
    requires Possible(f, a, run) && Possible(f, End(f, a, run), rest)
    ensures Possible(f, a, run + rest) && End(f, a, run + rest) == End(f, End(f, a, run), rest)
    ensures Tame(f, a, run + rest) <==> Tame(f, a, run) && Tame(f, End(f, a, run), rest)
    decreases run
  {
    if run == [] {
      assert run + rest == rest;
    } else {
      var b := Stepped(f, a, run[0]);
      RunsJoin(f, b, run[1..], rest);
      StepFirst(f, a, run[0], run[1..] + rest);
      assert run + rest == [run[0]] + (run[1..] + rest);
    }
  }

  lemma OneStep(f: File, a: Net, e: Step)
    requires Enabled(f, a, e)
    ensures Possible(f, a, [e]) && End(f, a, [e]) == Stepped(f, a, e)
  {
    StepFirst(f, a, e, []);
  }

  // ---------- What every run keeps ----------

  /** A chunk of the file, or the closing packet when the receiver no longer listens. */
  ghost predicate Sendable(f: File, a: Net, p: Packet)
    requires |f| >= 1
  {
    (0 <= p.seqNum < ChunkCount(|f|) && p == Chunk(f, p.seqNum)) || (p == CLOSING && a.r.done)
  }

  ghost predicate Timely(a: Net, k: AckPacket) {
    1 <= k.ackNum <= a.r.next
  }

  /** Whether the ring is overrun or not. */
  ghost predicate Sane(f: File, a: Net) {
    && Sound(a.s) && Covers(a.s.total, a.s.lastChunk, f) && Tidy(a.r, f) && a.s.base <= a.r.next
    && (a.s.lastSent == NONE ==> a.r.next == 0 && a.data == {})
    && (forall p {:trigger Sendable(f, a, p)} :: p in a.data ==> Sendable(f, a, p))
    && (forall k {:trigger Timely(a, k)} :: k in a.acks ==> Timely(a, k))
  }

  lemma {:induction false} HighestIsReached(base: int, acks: seq<int>, limit: int)
    requires InRange(limit, acks) && base <= limit
    ensures base <= Highest(base, acks) <= limit
    decreases acks
  {
    if acks != [] {
      var rest := acks[1..];
      forall i | 0 <= i < |rest| ensures 0 <= rest[i] <= limit { assert rest[i] == acks[i + 1]; }
      HighestIsReached(Max(base, acks[0]), rest, limit);
    }
  }

  lemma AcksAreInRange(f: File, a: Net, w: Wakeup, n: nat)
    requires Sane(f, a) && MaySend(f, a, w, n)
    ensures InRange(AckLimit(a.s), w.acks) && InRange(a.r.next, w.acks)
    ensures forall i :: 0 <= i < |w.acks| ==> w.acks[i] >= 1
  {
    forall i | 0 <= i < |w.acks| ensures 1 <= w.acks[i] <= AckLimit(a.s) && w.acks[i] <= a.r.next {
      assert InFlight(a.acks, w.acks[i]);
      var k :| k in a.acks && k.ackNum == w.acks[i];
      assert Timely(a, k);
    }
  }

  lemma TurnIsSane(f: File, a: Net, w: Wakeup, n: nat)
    requires Sane(f, a) && MaySend(f, a, w, n)
    ensures Sane(f, Stepped(f, a, Turn(w, n))) && a.s.base <= Stepped(f, a, Turn(w, n)).s.base
  {
    AcksAreInRange(f, a, w, n);
    var t := Digested(a.s, w);
    DigestedIsSound(a.s, w);
    HighestIsReached(a.s.base, w.acks, a.r.next);
    SendingIsSound(t, n);
    var b := Stepped(f, a, Turn(w, n));
    forall p | p in b.data ensures Sendable(f, b, p) {
      if p in a.data { assert Sendable(f, a, p); }
    }
    forall k | k in b.acks ensures Timely(b, k) {
      assert Timely(a, k);
    }
  }

  lemma DeliveryIsSane(f: File, a: Net, p: Packet)
    requires Sane(f, a) && Enabled(f, a, Deliver(p))
    ensures Sane(f, Stepped(f, a, Deliver(p))) && a.r.out <= Stepped(f, a, Deliver(p)).r.out
  {
    assert Sendable(f, a, p);
    ChunkKeepsTidy(a.r, f, p);
    AcksAreCumulative(a.r, p);
    var b := Stepped(f, a, Deliver(p));
    forall q | q in b.data ensures Sendable(f, b, q) {
      assert Sendable(f, a, q);
    }
    forall k | k in b.acks ensures Timely(b, k) {
      if k in a.acks { assert Timely(a, k); }
    }
  }

  lemma StepIsSane(f: File, a: Net, e: Step)
    requires Sane(f, a) && Enabled(f, a, e)
    ensures var b := Stepped(f, a, e);
            && Sane(f, b) && b.s.total == a.s.total
            && a.s.base <= b.s.base && a.r.next <= b.r.next && a.r.out <= b.r.out && (a.r.done ==> b.r == a.r)
  {
    match e
    case Turn(w, n) =>
      TurnIsSane(f, a, w, n);
      AcksAreInRange(f, a, w, n);
      DigestedIsSound(a.s, w);
    case Deliver(p) => DeliveryIsSane(f, a, p);
    case _ =>
      var b := Stepped(f, a, e);
      forall q | q in b.data ensures Sendable(f, b, q) {
        if q in a.data { assert Sendable(f, a, q); }
      }
      forall k | k in b.acks ensures Timely(b, k) {
        if k in a.acks { assert Timely(a, k); }
      }
  }

  lemma StartIsSane(f: File)
    requires 1 <= |f| < MODULUS
    ensures Sane(f, Start(f))
  {
    StartedCounts(|f|);
    StartsSound(|f|);
    ReadyIsWaiting(f);
    WaitingIsTidy(Ready(), f);
  }

  /** Neither side ever goes back, whatever the network and the sender's window do. */
  lemma {:induction false} NothingIsUndone(f: File, a: Net, run: seq<Step>)
    requires Sane(f, a) && Possible(f, a, run)
    ensures var b := End(f, a, run);
            && Sane(f, b) && b.s.total == a.s.total
            && a.s.base <= b.s.base && a.r.next <= b.r.next && a.r.out <= b.r.out && (a.r.done ==> b.r == a.r)
    decreases run
  {
    if run != [] {
      StepIsSane(f, a, run[0]);
      NothingIsUndone(f, Stepped(f, a, run[0]), run[1..]);
    }
  }

  /** Even a run that overruns the ring keeps the two ends in step: the sender is never ahead of the receiver, nothing
      is acknowledged that was not passed, and the sender does not stop before the receiver has. */
  lemma SenderIsNeverAhead(f: File, run: seq<Step>)
    requires 1 <= |f| < MODULUS && Possible(f, Start(f), run)
    ensures var a := End(f, Start(f), run);
            && 0 <= a.s.base <= a.r.next <= ChunkCount(|f|) == a.s.total
            && (forall k :: k in a.acks ==> 1 <= k.ackNum <= a.r.next)
            && (a.s.base >= a.s.total ==> a.r.done)
  {
    StartIsSane(f);
    NothingIsUndone(f, Start(f), run);
    var a := End(f, Start(f), run);
    forall k | k in a.acks ensures 1 <= k.ackNum <= a.r.next {
      assert Timely(a, k);
    }
  }

  // ---------- Safety ----------

  /** ... and the ring is not overrun: it holds what belongs there, and so will what is in flight. */
  ghost predicate Safe(f: File, a: Net) {
    Sane(f, a) && Waiting(a.r, f) && forall p :: p in a.data ==> p.seqNum < Reach(a.s.base)
  }

  lemma StartIsSafe(f: File)
    requires 1 <= |f| < MODULUS
    ensures Safe(f, Start(f))
  {
    StartIsSane(f);
    ReadyIsWaiting(f);
  }

  lemma StepIsSafe(f: File, a: Net, e: Step)
    requires Safe(f, a) && Enabled(f, a, e) && WithinRing(a, e)
    ensures Safe(f, Stepped(f, a, e))
  {
    StepIsSane(f, a, e);
    if e.Deliver? {
      assert Sendable(f, a, e.p);
      InWindowIsEnough(a.r, f, e.p);
    } else if e.Turn? {
      AcksAreInRange(f, a, e.w, e.n);
      DigestedIsSound(a.s, e.w);
    }
  }

  lemma {:induction false} RunIsSafe(f: File, a: Net, run: seq<Step>)
    requires Safe(f, a) && Possible(f, a, run) && Tame(f, a, run)
    ensures Safe(f, End(f, a, run))
    decreases run
  {
    if run != [] {
      StepIsSafe(f, a, run[0]);
      RunIsSafe(f, Stepped(f, a, run[0]), run[1..]);
    }
  }

  lemma PrefixIsWholeAtEnd(f: File, k: int)
    requires |f| >= 1 && 0 <= k <= ChunkCount(|f|)
    ensures Prefix(f, k) == f <==> k == ChunkCount(|f|)
  {
    if k < ChunkCount(|f|) {
      assert |Prefix(f, k)| < |f|;
    }
  }

  /** What a transfer promises: the output is the file up to the chunk expected next, the receiver stops only on the
      whole file, and it gets done with every packet in flight. */
  ghost predicate Right(f: File, a: Net) {
    && 0 <= a.r.next && a.r.out == Prefix(f, a.r.next) && (a.r.done ==> a.r.out == f)
    && (forall p :: p in a.data && !a.r.done ==> Responds(a.r, p))
  }

  lemma SafeIsRight(f: File, a: Net)
    requires Safe(f, a)
    ensures Right(f, a) && (a.r.done <==> a.r.out == f)
  {
    PrefixIsWholeAtEnd(f, a.r.next);
    forall p | p in a.data ensures Responds(a.r, p) {
      WaitingResponds(a.r, f, p);
    }
  }

  /** However the network behaves, as long as the sender does not overrun the ring: the output is the file up to the
      chunk expected next, nothing is acknowledged that was not written, the receiver stops exactly when the output is
      the whole file, and the sender never stops before that. */
  lemma TransferIsSafe(f: File, run: seq<Step>)
    requires 1 <= |f| < MODULUS && Possible(f, Start(f), run) && Tame(f, Start(f), run)
    ensures var a := End(f, Start(f), run);
            && Right(f, a) && 0 <= a.s.base <= a.r.next <= ChunkCount(|f|) == a.s.total
            && a.r.out == Prefix(f, a.r.next)
            && (forall k :: k in a.acks ==> k.ackNum <= a.r.next)
            && (a.r.done <==> a.r.out == f)
            && (a.s.base >= a.s.total ==> a.r.done)
  {
    StartIsSafe(f);
    RunIsSafe(f, Start(f), run);
    var a := End(f, Start(f), run);
    SafeIsRight(f, a);
    SenderIsNeverAhead(f, run);
  }

  /** The chunks that reached the receiver in the course of a run, not counting what came before packet 0. */
  ghost function Arrived(f: File, a: Net, run: seq<Step>): set<int>
    requires Possible(f, a, run)
    decreases run
  {
    if run == [] then {}
    else
      var e := run[0];
      (if e.Deliver? && (a.r.next > 0 || e.p.seqNum == 0) then {e.p.seqNum} else {})
      + Arrived(f, Stepped(f, a, e), run[1..])
  }

  lemma {:induction false} ArrivedIsKept(f: File, a: Net, run: seq<Step>, n: nat)
    requires Safe(f, a) && Possible(f, a, run) && Tame(f, a, run)
    ensures Safe(f, End(f, a, run)) && (Has(End(f, a, run).r, n) <==> Has(a.r, n) || n in Arrived(f, a, run))
    decreases run
  {
    if run != [] {
      var e := run[0];
      StepIsSafe(f, a, e);
      if e.Deliver? && Known(a.r, e.p) {
        assert Sendable(f, a, e.p);
        ArrivalIsKept(a.r, f, e.p, n);
      }
      ArrivedIsKept(f, Stepped(f, a, e), run[1..], n);
    }
  }

  /** In every run that does not overrun the ring the receiver has written the chunks below the first that has not
      arrived, whatever the order in which they came. */
  lemma ExpectedIsFirstMissing(f: File, run: seq<Step>)
    requires 1 <= |f| < MODULUS && Possible(f, Start(f), run) && Tame(f, Start(f), run)
    ensures var r, arrived := End(f, Start(f), run).r, Arrived(f, Start(f), run);
            && 0 <= r.next && r.next !in arrived && (forall n :: 0 <= n < r.next ==> n in arrived)
            && r.out == Prefix(f, r.next)
  {
    StartIsSafe(f);
    TransferIsSafe(f, run);
    var r := End(f, Start(f), run).r;
    ArrivedIsKept(f, Start(f), run, r.next);
    forall n | 0 <= n < r.next ensures n in Arrived(f, Start(f), run) {
      ArrivedIsKept(f, Start(f), run, n);
    }
  }
}
