/** What becomes of a transfer when nothing restrains the sender from overrunning the receiver's ring, and how low the
    window's threshold can go: runs of the whole protocol that show it, and exactly when they can occur. */
module Limits {
  import opened Packets
  import opened Congestion
  import opened Sender
  import opened Receiver
  import opened Transfer

  /** A file one chunk longer than the ring, or shorter, leaves the sender nothing to overrun it with. */
  lemma {:induction false} SmallFileIsTame(f: File, a: Net, run: seq<Step>)
    requires Safe(f, a) && Possible(f, a, run) && ChunkCount(|f|) <= WINDOW + 1
    ensures Tame(f, a, run)
    decreases run
  {
    if run != [] {
      var e := run[0];
      if e.Turn? {
        AcksAreInRange(f, a, e.w, e.n);
        DigestedIsSound(a.s, e.w);
        BurstFillsWindow(Digested(a.s, e.w));
      }
      StepIsSafe(f, a, e);
      SmallFileIsTame(f, Stepped(f, a, e), run[1..]);
    }
  }

  /** The chunks below n are in flight. */
  ghost predicate Sent(f: File, a: Net, n: int) {
    |f| >= 1 && forall i :: 0 <= i < n && i < ChunkCount(|f|) ==> Chunk(f, i) in a.data
  }

  const HEAR_NOTHING := Wakeup([], false, 0)
  const HEAR_ONE := Wakeup([1], false, 0)
  const HEAR_ONE_THRICE := Wakeup([1, 1, 1], false, 0)

  lemma HearingNothing(s: Sender)
    ensures Digested(s, HEAR_NOTHING) == s
  {
  }

  /** The sender has sent its first window and heard nothing yet. */
  ghost predicate FirstWindowSent(f: File, a: Net) {
    && |f| >= 1 && a.s == Launched(|f|) && Sound(a.s) && a.s.total == ChunkCount(|f|) && a.s.base == 0
    && a.s.cwnd == Initial() && !a.s.retrans && a.s.running && a.s.lastSent == Min(4, a.s.total) - 1
    && Sent(f, a, 4) && a.r == Ready()
  }

  lemma SendFirstWindow(f: File) returns (e: Step)
    requires 1 <= |f| < MODULUS
    ensures Enabled(f, Start(f), e) && FirstWindowSent(f, Stepped(f, Start(f), e))
  {
    var s := Started(|f|);
    StartedCounts(|f|);
    StartsSound(|f|);
    HearingNothing(s);
    BurstFillsWindow(s);
    SendingIsSound(s, Burst(s));
    e := Turn(HEAR_NOTHING, Burst(s));
    var b := Stepped(f, Start(f), e);
    forall i | 0 <= i < 4 && i < ChunkCount(|f|) ensures Chunk(f, i) in b.data {
      assert Chunk(f, i) in Chunks(f, 0, Burst(s));
    }
  }

  /** Chunk 0 is written and acknowledged, and the sender is between two turns with its window machine in state c. */
  ghost predicate OneWritten(f: File, a: Net, c: Reno) {
    && |f| >= 1 && ChunkCount(|f|) >= 2 && a.r == Appended(Ready(), Chunk(f, 0)) && InFlight(a.acks, 1)
    && Sound(a.s) && a.s.total == ChunkCount(|f|) && a.s.cwnd == c && !a.s.retrans
  }

  lemma DeliverChunkZero(f: File, a: Net) returns (e: Step)
    requires FirstWindowSent(f, a) && ChunkCount(|f|) >= 2
    ensures Enabled(f, a, e)
    ensures var b := Stepped(f, a, e);
            OneWritten(f, b, Initial()) && b.s == a.s && b.data == a.data
  {
    var p := Chunk(f, 0);
    e := Deliver(p);
    assert Ready().lens[0] != 1;
    assert !Full(Appended(Ready(), p), 1);
    assert AcksFor(a.r, p)[0].ackNum == 1 && AcksFor(a.r, p)[0] in AcksFor(a.r, p);
  }

  /** Acknowledgement 1 for the first time. */
  lemma FirstOne(s: Sender)
    requires Sound(s) && s.cwnd == Initial() && s.base == 0 && !s.retrans && 1 <= s.lastSent < NONE
    ensures Digested(s, HEAR_ONE) == s.(cwnd := s.cwnd.(window := 5, lastAck := 1), base := 1, running := true)
  {
    assert Heard(s.cwnd, 0, [1]) == (Acked(s.cwnd, 1), 1);
  }

  /** ... and three times more. */
  lemma ThreeOnes(s: Sender)
    requires (s.cwnd.state == SlowStart || s.cwnd.state == CongestAvoid) && s.cwnd.dupAck == 0
    requires s.cwnd.lastAck == 1 && s.base == 1
    ensures var half := Halved(s.cwnd.window);
            Digested(s, HEAR_ONE_THRICE)
            == s.(cwnd := s.cwnd.(window := half + 3, ssthresh := half, dupAck := 3, state := FastRecov),
                  retrans := true, running := false)
  {
    var c, half := s.cwnd, Halved(s.cwnd.window);
    var c1, c2 := c.(dupAck := 1), c.(dupAck := 2);
    var c3 := c.(dupAck := 3, ssthresh := half, window := half + 3, state := FastRecovRetrans);
    assert Acked(c, 1) == c1 && Acked(c1, 1) == c2 && Acked(c2, 1) == c3;
    assert [1, 1, 1][1..] == [1, 1] && [1, 1][1..] == [1];
    assert Heard(c2, 1, [1]) == (c3, 1);
    assert Heard(c1, 1, [1, 1]) == (c3, 1);
    assert Heard(c, 1, [1, 1, 1]) == (c3, 1);
  }

  /** One more duplicate of acknowledgement 1 while the sender recovers. */
  lemma OneMoreDuplicate(s: Sender)
    requires s.base == 1 && s.cwnd.state == FastRecov && s.cwnd.lastAck == 1
    ensures Digested(s, HEAR_ONE) == s.(cwnd := s.cwnd.(window := s.cwnd.window + 1), retrans := false)
  {
    assert Heard(s.cwnd, 1, [1]) == (Acked(s.cwnd, 1), 1);
  }

  /** Acknowledgement 1 has been heard, the window is larger by one and what it lets out is sent. */
  ghost predicate OneHeard(f: File, a: Net) {
    && OneWritten(f, a, Initial().(window := 5, lastAck := 1)) && a.s.base == 1
    && a.s.running && 1 <= a.s.lastSent && Sent(f, a, a.s.lastSent + 1)
  }

  lemma HearFirstOne(f: File, a: Net) returns (e: Step)
    requires OneWritten(f, a, Initial()) && a.s.base == 0 && a.s.lastSent == Min(4, a.s.total) - 1 && Sent(f, a, 4)
    ensures Enabled(f, a, e) && OneHeard(f, Stepped(f, a, e))
  {
    FirstOne(a.s);
    var t := Digested(a.s, HEAR_ONE);
    SendingIsSound(t, 0);
    e := Turn(HEAR_ONE, 0);
  }

  /** Duplicates of acknowledgement 1 have opened the window to w, all of it is sent, and the receiver has chunk 0
      only. */
  ghost predicate Inflated(f: File, a: Net, w: int) {
    && |f| >= 1 && OneWritten(f, a, a.s.cwnd) && w >= 5 && a.s.base == 1 && a.s.running
    && a.s.cwnd.state == FastRecov && a.s.cwnd.lastAck == 1 && a.s.cwnd.window == w
    && a.s.lastSent == Min(1 + w, a.s.total) - 1 && Sent(f, a, 1 + w)
  }

  lemma HearThreeOnes(f: File, a: Net) returns (e: Step)
    requires OneHeard(f, a)
    ensures Enabled(f, a, e) && Inflated(f, Stepped(f, a, e), 5)
  {
    ThreeOnes(a.s);
    var t := Digested(a.s, HEAR_ONE_THRICE);
    BurstFillsWindow(t);
    SendingIsSound(t, Burst(t));
    e := Turn(HEAR_ONE_THRICE, Burst(t));
    var b := Stepped(f, a, e);
    forall i | 0 <= i < 6 && i < ChunkCount(|f|) ensures Chunk(f, i) in b.data {
      assert i == 0 || Chunk(f, i) in Chunks(f, 1, Burst(t));
    }
  }

  lemma InflateOnce(f: File, a: Net, w: int) returns (e: Step)
    requires Inflated(f, a, w)
    ensures Enabled(f, a, e) && Inflated(f, Stepped(f, a, e), w + 1)
  {
    OneMoreDuplicate(a.s);
    var t := Digested(a.s, HEAR_ONE);
    BurstFillsWindow(t);
    SendingIsSound(t, Burst(t));
    e := Turn(HEAR_ONE, Burst(t));
    var b := Stepped(f, a, e);
    forall i | 0 <= i < w + 2 && i < ChunkCount(|f|) ensures Chunk(f, i) in b.data {
      assert i < w + 1 || Chunk(f, i) in Chunks(f, Next(t), Burst(t));
    }
  }

  lemma {:induction false} Inflate(f: File, a: Net, w: int, goal: int) returns (run: seq<Step>)
    requires Inflated(f, a, w) && w <= goal
    ensures Possible(f, a, run) && Inflated(f, End(f, a, run), goal)
    decreases goal - w
  {
    if w == goal {
      run := [];
    } else {
      var e := InflateOnce(f, a, w);
      var rest := Inflate(f, Stepped(f, a, e), w + 1, goal);
      StepFirst(f, a, e, rest);
      run := [e] + rest;
    }
  }

  /** The first window, chunk 0 and its acknowledgement. */
  lemma HearOneFirst(f: File) returns (run: seq<Step>)
    requires 1 <= |f| < MODULUS && ChunkCount(|f|) >= 2
    ensures Possible(f, Start(f), run) && OneHeard(f, End(f, Start(f), run))
  {
    var e1 := SendFirstWindow(f);
    var a1 := Stepped(f, Start(f), e1);
    var e2 := DeliverChunkZero(f, a1);
    var a2 := Stepped(f, a1, e2);
    var e3 := HearFirstOne(f, a2);
    OneStep(f, a2, e3);
    StepFirst(f, a1, e2, [e3]);
    run := [e1] + ([e2] + [e3]);
    StepFirst(f, Start(f), e1, [e2] + [e3]);
  }

  /** Nothing caps the window: for a file of two chunks or more, some run opens it to any size, with nothing but
      chunk 0 acknowledged. */
  lemma WindowIsNotCapped(f: File, w: int) returns (run: seq<Step>)
    requires 1 <= |f| < MODULUS && ChunkCount(|f|) >= 2 && w >= 5
    ensures Possible(f, Start(f), run) && Inflated(f, End(f, Start(f), run), w)
  {
    var first := HearOneFirst(f);
    var a := End(f, Start(f), first);
    var e := HearThreeOnes(f, a);
    var rest := Inflate(f, Stepped(f, a, e), 5, w);
    StepFirst(f, a, e, rest);
    RunsJoin(f, Start(f), first, [e] + rest);
    run := first + ([e] + rest);
  }

  // ---------- A receiver that never comes back ----------

  /** Everything is in flight, and chunks 2, ..., m wait in the ring. */
  ghost predicate Crowded(f: File, a: Net, m: int) {
    && |f| >= 1 && WINDOW + 1 < ChunkCount(|f|) && Sent(f, a, ChunkCount(|f|)) && Shaped(a.r)
    && a.r.next == 1 && !a.r.done && (forall i {:trigger Full(a.r, i)} :: 2 <= i <= m ==> Full(a.r, i))
  }

  lemma {:induction false} Crowd(f: File, a: Net, m: int) returns (run: seq<Step>)
    requires Crowded(f, a, m) && 1 <= m <= WINDOW + 1
    ensures Possible(f, a, run) && Crowded(f, End(f, a, run), WINDOW + 1)
    decreases WINDOW - m
  {
    if m == WINDOW + 1 {
      run := [];
    } else {
      var p := Chunk(f, m + 1);
      var e := Deliver(p);
      var b := Stepped(f, a, e);
      forall i | 2 <= i <= m + 1 ensures Full(b.r, i) {
        if i <= m { assert Full(a.r, i); SlotsDiffer(i, m + 1); }
      }
      var rest := Crowd(f, b, m + 1);
      StepFirst(f, a, e, rest);
      run := [e] + rest;
    }
  }

  /** With every slot full, the packet expected next sends the receiver counting forever. */
  lemma CrowdedIsStuck(f: File, a: Net)
    requires Crowded(f, a, WINDOW + 1)
    ensures !Responds(a.r, Chunk(f, 1)) && Chunk(f, 1) in a.data && !Right(f, a)
  {
    forall k | 0 <= k < WINDOW ensures a.r.lens[k] == 1 {
      var i := if k < 2 then k + WINDOW else k;
      assert Full(a.r, i) && Slot(i) == k;
    }
  }

  lemma StuckRun(f: File) returns (run: seq<Step>)
    requires 1 <= |f| < MODULUS && ChunkCount(|f|) > WINDOW + 1
    ensures Possible(f, Start(f), run) && !Right(f, End(f, Start(f), run))
  {
    var first := WindowIsNotCapped(f, ChunkCount(|f|));
    var a := End(f, Start(f), first);
    var rest := Crowd(f, a, 1);
    RunsJoin(f, Start(f), first, rest);
    CrowdedIsStuck(f, End(f, a, rest));
    run := first + rest;
  }

  ghost predicate RightAfter(f: File, run: seq<Step>)
    requires |f| >= 1
  {
    Possible(f, Start(f), run) ==> Right(f, End(f, Start(f), run))
  }

  lemma SmallFileIsRight(f: File, run: seq<Step>)
    requires 1 <= |f| < MODULUS && ChunkCount(|f|) <= WINDOW + 1
    ensures RightAfter(f, run)
  {
    if Possible(f, Start(f), run) {
      StartIsSafe(f);
      SmallFileIsTame(f, Start(f), run);
      TransferIsSafe(f, run);
    }
  }

  /** Every unrestrained run keeps the transfer's promises, whatever the network does, if and only if the file is at
      most one chunk longer than the receiver's ring. */
  lemma UnrestrainedIsRightExactly(f: File)
    requires 1 <= |f| < MODULUS
    ensures (forall run {:trigger RightAfter(f, run)} :: RightAfter(f, run)) <==> ChunkCount(|f|) <= WINDOW + 1
  {
    if ChunkCount(|f|) <= WINDOW + 1 {
      forall run ensures RightAfter(f, run) {
        SmallFileIsRight(f, run);
      }
    } else {
      var run := StuckRun(f);
      assert !RightAfter(f, run);
    }
  }

  // ---------- A receiver that writes the wrong chunk ----------

  /** Chunk m and those after it, in order, until j is written in another chunk's place. */
  lemma {:induction false} DeliverInOrder(f: File, a: Net, j: int, m: int) returns (run: seq<Step>)
    requires Overrun(a.r, f, j, m) && m < Landing(j) && Sent(f, a, ChunkCount(|f|))
    ensures Possible(f, a, run) && Misplaced(End(f, a, run).r, f, j)
    decreases Landing(j) - m
  {
    LandingSharesSlot(j);
    var e := Deliver(Chunk(f, m));
    OverrunHasRoom(a.r, f, j, m);
    OverrunGoesOn(a.r, f, j, m);
    var b := Stepped(f, a, e);
    if m + 1 == Landing(j) {
      OneStep(f, a, e);
      run := [e];
    } else {
      var rest := DeliverInOrder(f, b, j, m + 1);
      StepFirst(f, a, e, rest);
      run := [e] + rest;
    }
  }

  lemma StoreFromBeyond(f: File, a: Net, j: int)
    requires |f| >= 1 && WINDOW + 1 < j < ChunkCount(|f|) && a.r == Appended(Ready(), Chunk(f, 0))
    ensures Overrun(Stored(a.r, Chunk(f, j)), f, j, 1)
  {
    PrefixGrows(f, 0);
    var w := Stored(a.r, Chunk(f, j));
    forall i | 1 < i <= 1 + WINDOW ensures Full(w, i) <==> Slot(i) == Slot(j) {
      assert w.lens[Slot(i)] == if Slot(i) == Slot(j) then 1 else 0;
    }
  }

  /** For every chunk j that is more than WINDOW + 1 behind chunk 0, some run of sender, network and receiver writes it
      in the place of the first chunk from 2 on that shares its slot. */
  lemma ChunkCanBeMisplaced(f: File, j: int) returns (run: seq<Step>)
    requires 1 <= |f| < MODULUS && WINDOW + 1 < j < ChunkCount(|f|)
    ensures Possible(f, Start(f), run) && Misplaced(End(f, Start(f), run).r, f, j)
  {
    LandingSharesSlot(j);
    var first := WindowIsNotCapped(f, ChunkCount(|f|));
    var a := End(f, Start(f), first);
    var e := Deliver(Chunk(f, j));
    StoreFromBeyond(f, a, j);
    var b := Stepped(f, a, e);
    var rest := DeliverInOrder(f, b, j, 1);
    StepFirst(f, a, e, rest);
    RunsJoin(f, Start(f), first, [e] + rest);
    run := first + ([e] + rest);
  }

  /** What is written after p is a beginning of whatever goes on with e exactly when it begins e. */
  lemma BeginsAfter<T>(p: seq<T>, d: seq<T>, e: seq<T>)
    requires |d| <= |e|
    ensures p + d <= p + e <==> d <= e
  {
    if d <= e {
      assert (p + e)[..|p + d|] == p + e[..|d|];
    }
    if p + d <= p + e {
      forall i | 0 <= i < |d| ensures d[i] == e[i] {
        assert d[i] == (p + d)[|p| + i] == (p + e)[|p| + i];
      }
    }
  }

  /** The output is then right so far only if the chunk begins like the one it displaced, and it is never the file. */
  lemma MisplacedIsWrong(r: Reception, f: File, j: int)
    requires Misplaced(r, f, j)
    ensures r.out <= f <==> Chunk(f, j).data <= Chunk(f, Landing(j)).data
    ensures r.out != f
  {
    LandingSharesSlot(j);
    var n, d, e := Landing(j), Chunk(f, j).data, Chunk(f, Landing(j)).data;
    PrefixGrows(f, n);
    BeginsAfter(Prefix(f, n), d, e);
    var whole := Prefix(f, n + 1);
    assert whole <= f && |r.out| <= |whole|;
    assert r.out <= f <==> r.out <= whole;
  }

  /** The receiver can be made to stop on an output that is not the file, for any file more than two chunks longer than
      the ring. */
  lemma FileCanBeTruncated(f: File) returns (run: seq<Step>)
    requires 1 <= |f| < MODULUS && ChunkCount(|f|) > WINDOW + 2
    ensures Possible(f, Start(f), run)
    ensures var r := End(f, Start(f), run).r; r.done && r.out != f
  {
    var j := ChunkCount(|f|) - 1;
    run := ChunkCanBeMisplaced(f, j);
    MisplacedIsWrong(End(f, Start(f), run).r, f, j);
  }

  /** ... and to write something that the file does not begin with, when chunk WINDOW + 2 does not begin chunk 2. */
  lemma OutputCanBeForeign(f: File) returns (run: seq<Step>)
    requires 1 <= |f| < MODULUS && ChunkCount(|f|) > WINDOW + 2
    requires !(Chunk(f, WINDOW + 2).data <= Chunk(f, 2).data)
    ensures Possible(f, Start(f), run) && !(End(f, Start(f), run).r.out <= f)
  {
    run := ChunkCanBeMisplaced(f, WINDOW + 2);
    MisplacedIsWrong(End(f, Start(f), run).r, f, WINDOW + 2);
  }

  /** What is written is the file up to the number reached, and the receiver stops on the whole file only. */
  ghost predicate WrittenRightAfter(f: File, run: seq<Step>)
    requires |f| >= 1
  {
    Possible(f, Start(f), run) ==>
      var r := End(f, Start(f), run).r;
      0 <= r.next && r.out == Prefix(f, r.next) && (r.done ==> r.out == f)
  }

  lemma {:induction false} RunWritesRight(f: File, a: Net, run: seq<Step>)
    requires Sane(f, a) && WrittenRight(a.r, f) && Possible(f, a, run) && ChunkCount(|f|) <= WINDOW + 2
    ensures WrittenRight(End(f, a, run).r, f)
    decreases run
  {
    if run != [] {
      var e := run[0];
      if e.Deliver? {
        assert Sendable(f, a, e.p);
        ShortFileIsWrittenRight(a.r, f, e.p);
      }
      StepIsSane(f, a, e);
      RunWritesRight(f, Stepped(f, a, e), run[1..]);
    }
  }

  lemma ShortOutputIsRight(f: File, run: seq<Step>)
    requires 1 <= |f| < MODULUS && ChunkCount(|f|) <= WINDOW + 2
    ensures WrittenRightAfter(f, run)
  {
    if Possible(f, Start(f), run) {
      StartIsSane(f);
      RunWritesRight(f, Start(f), run);
      PrefixIsWholeAtEnd(f, End(f, Start(f), run).r.next);
    }
  }

  /** Every unrestrained run writes what it should, as long as it goes on, if and only if the file is at most two chunks
      longer than the ring. */
  lemma OutputIsRightExactly(f: File)
    requires 1 <= |f| < MODULUS
    ensures (forall run {:trigger WrittenRightAfter(f, run)} :: WrittenRightAfter(f, run))
            <==> ChunkCount(|f|) <= WINDOW + 2
  {
    if ChunkCount(|f|) <= WINDOW + 2 {
      forall run ensures WrittenRightAfter(f, run) {
        ShortOutputIsRight(f, run);
      }
    } else {
      var run := FileCanBeTruncated(f);
      assert !WrittenRightAfter(f, run);
    }
  }

  // ---------- A threshold below two segments ----------

  /** Nothing waits in the ring. */
  ghost predicate NothingWaits(r: Reception) {
    Shaped(r) && forall k :: 0 <= k < WINDOW ==> r.lens[k] != 1
  }

  /** Chunk m is expected and in flight. */
  ghost predicate Expecting(f: File, a: Net, m: int) {
    |f| >= 1 && 0 <= m && m + 1 < ChunkCount(|f|) && Sent(f, a, 4) && NothingWaits(a.r) && a.r.next == m && !a.r.done
  }

  lemma DeliverExpected(f: File, a: Net, m: int) returns (e: Step)
    requires Expecting(f, a, m) && m < 4
    ensures Enabled(f, a, e)
    ensures var b := Stepped(f, a, e);
            && b.s == a.s && b.data == a.data && NothingWaits(b.r) && b.r.next == m + 1 && !b.r.done
            && InFlight(b.acks, m + 1)
  {
    var p := Chunk(f, m);
    e := Deliver(p);
    assert a.r.lens[0] != 1;
    assert !Full(Appended(a.r, p), m + 1);
    assert AcksFor(a.r, p)[0] in AcksFor(a.r, p) && AcksFor(a.r, p)[0].ackNum == m + 1;
  }

  /** The sender between two turns, with its window machine in state c. */
  ghost predicate Poised(f: File, s: Sender, c: Reno, base: int) {
    |f| >= 1 && Sound(s) && s.total == ChunkCount(|f|) && s.cwnd == c && s.base == base && !s.retrans
  }

  const TIMEOUT := Wakeup([], true, 1)

  /** The timer expires and the packet at the base is sent again. */
  lemma TimeoutTurn(f: File, a: Net, c: Reno, base: int) returns (e: Step)
    requires Poised(f, a.s, c, base) && base < a.s.total && a.s.running
    ensures Enabled(f, a, e)
    ensures var b := Stepped(f, a, e);
            Poised(f, b.s, TimedOut(c, base), base) && b.r == a.r && a.data <= b.data && b.acks == a.acks
  {
    DigestedIsSound(a.s, TIMEOUT);
    var t := Digested(a.s, TIMEOUT);
    assert Heard(c, base, []) == (c, base);
    BurstFillsWindow(t);
    SendingIsSound(t, Burst(t));
    e := Turn(TIMEOUT, Burst(t));
  }

  /** One acknowledgement of new data is heard and the window is sent. */
  lemma HearTurn(f: File, a: Net, c: Reno, base: int, ack: int) returns (e: Step)
    requires Poised(f, a.s, c, base) && base < ack <= AckLimit(a.s) && ack < a.s.total && InFlight(a.acks, ack)
    ensures Enabled(f, a, e)
    ensures var b := Stepped(f, a, e);
            Poised(f, b.s, Acked(c, ack), ack) && b.r == a.r && a.data <= b.data && b.acks == a.acks
  {
    var w := Wakeup([ack], false, 0);
    assert Heard(c, base, [ack]) == (Acked(c, ack), ack);
    DigestedIsSound(a.s, w);
    var t := Digested(a.s, w);
    BurstFillsWindow(t);
    SendingIsSound(t, Burst(t));
    e := Turn(w, Burst(t));
  }

  /** The third duplicate at a window of 3. */
  lemma ThirdDuplicateAtThree(f: File, a: Net, c: Reno, base: int) returns (e: Step)
    requires Poised(f, a.s, c, base) && base < a.s.total && InFlight(a.acks, base) && base <= AckLimit(a.s)
    requires c.state == CongestAvoid && c.window == 3 && c.dupAck == 0 && c.lastAck == base
    ensures Enabled(f, a, e) && Stepped(f, a, e).s.cwnd.ssthresh == 1
  {
    var w := Wakeup([base, base, base], false, 0);
    var c1, c2 := c.(dupAck := 1), c.(dupAck := 2);
    var c3 := c.(dupAck := 3, ssthresh := 1, window := 4, state := FastRecovRetrans);
    assert Acked(c, base) == c1 && Acked(c1, base) == c2 && Acked(c2, base) == c3;
    assert w.acks[1..] == [base, base] && [base, base][1..] == [base];
    assert Heard(c2, base, [base]) == (c3, base);
    assert Heard(c1, base, [base, base]) == (c3, base);
    assert Heard(c, base, w.acks) == (c3, base);
    e := Turn(w, Burst(Digested(a.s, w)));
  }

  /** Two losses in a row and three acknowledgements: the window machine's states on the way. */
  lemma WindowOfThree() returns (c1: Reno, c2: Reno, c3: Reno)
    ensures c1 == TimedOut(Initial(), 0) && c2 == Acked(c1, 1) && c3 == Acked(c2, 3)
    ensures c3.state == CongestAvoid && c3.window == 3 && c3.dupAck == 0 && c3.lastAck == 3
  {
    c1 := TimedOut(Initial(), 0);
    c2 := Acked(c1, 1);
    c3 := Acked(c2, 3);
  }

  /** The first loss, noticed by a timeout, and the recovery of chunks 0 to 2. */
  lemma RecoverToThree(f: File, a: Net) returns (run: seq<Step>)
    requires FirstWindowSent(f, a) && ChunkCount(|f|) >= 4
    ensures Possible(f, a, run)
    ensures var (b, c) := (End(f, a, run), Acked(Acked(TimedOut(Initial(), 0), 1), 3));
            Poised(f, b.s, c, 3) && InFlight(b.acks, 3) && b.s.lastSent != NONE
  {
    var c1, c2, c3 := WindowOfThree();
    var e1 := TimeoutTurn(f, a, Initial(), 0);
    var a1 := Stepped(f, a, e1);
    var e2 := DeliverExpected(f, a1, 0);
    var a2 := Stepped(f, a1, e2);
    var e3 := HearTurn(f, a2, c1, 0, 1);
    var a3 := Stepped(f, a2, e3);
    var e4 := DeliverExpected(f, a3, 1);
    var a4 := Stepped(f, a3, e4);
    var e5 := DeliverExpected(f, a4, 2);
    var a5 := Stepped(f, a4, e5);
    var e6 := HearTurn(f, a5, c2, 1, 3);
    OneStep(f, a5, e6);
    StepFirst(f, a4, e5, [e6]);
    StepFirst(f, a3, e4, [e5] + [e6]);
    StepFirst(f, a2, e3, [e4] + ([e5] + [e6]));
    StepFirst(f, a1, e2, [e3] + ([e4] + ([e5] + [e6])));
    StepFirst(f, a, e1, [e2] + ([e3] + ([e4] + ([e5] + [e6]))));
    run := [e1] + ([e2] + ([e3] + ([e4] + ([e5] + [e6]))));
  }

  /** For any file of four chunks or more some run of sender, network and receiver takes the threshold to 1, below the
      2 segments of RFC 5681. */
  lemma ThresholdCanBeOne(f: File) returns (run: seq<Step>)
    requires 1 <= |f| < MODULUS && ChunkCount(|f|) >= 4
    ensures Possible(f, Start(f), run) && End(f, Start(f), run).s.cwnd.ssthresh == 1
  {
    var e := SendFirstWindow(f);
    var a := Stepped(f, Start(f), e);
    var mid := RecoverToThree(f, a);
    var b := End(f, a, mid);
    var c1, c2, c3 := WindowOfThree();
    var last := ThirdDuplicateAtThree(f, b, c3, 3);
    OneStep(f, b, last);
    RunsJoin(f, a, mid, [last]);
    StepFirst(f, Start(f), e, mid + [last]);
    run := [e] + (mid + [last]);
  }
}
