/** When a transfer can still be completed, and when sender, receiver and network have come to a dead end. */
module Completion {
  import opened Packets
  import opened Congestion
  import opened Sender
  import opened Receiver
  import opened Transfer
  import opened Limits

  /** How many packets the window lets out that the ring has room for. */
  function Room(s: Sender): int {
    Min(Limit(s), Reach(s.base)) - Next(s)
  }

  /** The timer runs, or there is something to send. */
  predicate Awake(s: Sender) {
    s.running || Room(s) > 0
  }

  /** Nothing malformed or from elsewhere reaches the receiver. */
  ghost predicate Undisturbed(run: seq<Step>) {
    forall e :: e in run ==> !e.Garble?
  }

  ghost predicate Completed(f: File, a: Net) {
    a.r.done && a.r.out == f
  }

  // ---------- From a sender that is awake ----------

  const TIMER := Wakeup([], true, 1)

  /** The timer expires, and exactly the packet at the base is sent. */
  lemma TimeoutResendsBase(s: Sender)
    requires Sound(s) && s.base < s.total
    ensures var t := Digested(s, TIMER); t.base == s.base && Next(t) == s.base && Burst(t) >= 1
  {
    DigestedIsSound(s, TIMER);
  }

  lemma Resend(f: File, a: Net) returns (e: Step, b: Net)
    requires Safe(f, a) && !a.r.done && a.s.running
    ensures Enabled(f, a, e) && WithinRing(a, e) && e.Turn? && b == Stepped(f, a, e)
    ensures Safe(f, b) && b.r == a.r && Chunk(f, a.s.base) in b.data && b.s.base == a.s.base && b.s.total == a.s.total
  {
    TimeoutResendsBase(a.s);
    DigestedIsSound(a.s, TIMER);
    e := Turn(TIMER, 1);
    StepIsSafe(f, a, e);
    b := Stepped(f, a, e);
  }

  /** New data is acknowledged: the sender is awake, whatever it was before. */
  lemma HearingNewWakes(s: Sender, n: int)
    requires Sound(s) && s.base < n < s.total && s.lastSent != NONE
    ensures var t := Digested(s, Wakeup([n], false, 0)); t.base == n && t.total == s.total && Awake(t)
  {
    var w := Wakeup([n], false, 0);
    DigestedIsSound(s, w);
    assert Heard(s.cwnd, s.base, w.acks) == (Acked(s.cwnd, n), n);
    BurstFillsWindow(Digested(s, w));
  }

  lemma HearNew(f: File, a: Net, n: int) returns (e: Step, b: Net)
    requires Safe(f, a) && !a.r.done && InFlight(a.acks, n) && n > a.s.base
    ensures Enabled(f, a, e) && WithinRing(a, e) && e.Turn? && b == Stepped(f, a, e)
    ensures Safe(f, b) && b.r == a.r && b.s.base == n && b.s.total == a.s.total && Awake(b.s)
  {
    var k :| k in a.acks && k.ackNum == n;
    assert Timely(a, k);
    HearingNewWakes(a.s, n);
    e := Turn(Wakeup([n], false, 0), 0);
    StepIsSafe(f, a, e);
    b := Stepped(f, a, e);
  }

  /** A packet in flight reaches the receiver, which answers with the number it then expects. */
  lemma Answer(f: File, a: Net, p: Packet) returns (e: Step, b: Net)
    requires Safe(f, a) && !a.r.done && p in a.data && Known(a.r, p)
    ensures Enabled(f, a, e) && WithinRing(a, e) && e.Deliver? && b == Stepped(f, a, e)
    ensures Safe(f, b) && b.s == a.s && b.r == Received(a.r, p) && InFlight(b.acks, b.r.next)
  {
    WaitingResponds(a.r, f, p);
    e := Deliver(p);
    StepIsSafe(f, a, e);
    b := Stepped(f, a, e);
    AcksAreCumulative(a.r, p);
    var k := AcksFor(a.r, p)[0];
    assert k in b.acks && k.ackNum == b.r.next;
  }

  /** Timeout, delivery and acknowledgement of the packet at the base. */
  lemma RoundTrip(f: File, a: Net) returns (run: seq<Step>, b: Net)
    requires Safe(f, a) && !a.r.done && a.s.running
    ensures Possible(f, a, run) && Tame(f, a, run) && Undisturbed(run) && b == End(f, a, run) && Safe(f, b)
    ensures b.s.total == a.s.total && (b.r.done || (a.s.base < b.s.base && Awake(b.s)))
  {
    var e1, x := Resend(f, a);
    var p := Chunk(f, a.s.base);
    var e2, y := Answer(f, x, p);
    if y.r.done {
      StepFirst(f, x, e2, []);
      StepFirst(f, a, e1, [e2]);
      run, b := [e1] + [e2], y;
    } else {
      var e3, z := HearNew(f, y, y.r.next);
      StepFirst(f, y, e3, []);
      StepFirst(f, x, e2, [e3]);
      StepFirst(f, a, e1, [e2] + [e3]);
      run, b := [e1] + ([e2] + [e3]), z;
    }
  }

  lemma SendOneMore(f: File, a: Net) returns (e: Step, b: Net)
    requires Safe(f, a) && !a.r.done && Burst(a.s) > 0
    ensures Enabled(f, a, e) && e == Turn(HEAR_NOTHING, 1) && b == Stepped(f, a, e) && b.s.running && b.r == a.r
    ensures b.s.base == a.s.base && b.s.total == a.s.total && (Room(a.s) > 0 ==> WithinRing(a, e) && Safe(f, b))
  {
    HearingNothing(a.s);
    e := Turn(HEAR_NOTHING, 1);
    if Room(a.s) > 0 { StepIsSafe(f, a, e); }
    b := Stepped(f, a, e);
  }

  /** Whatever was lost so far, as long as the timer runs or something can be sent the transfer can still be completed,
      without overrunning the ring and without help from elsewhere. */
  lemma {:induction false} CanComplete(f: File, a: Net) returns (run: seq<Step>)
    requires Safe(f, a) && (a.r.done || Awake(a.s))
    ensures Possible(f, a, run) && Tame(f, a, run) && Undisturbed(run) && Completed(f, End(f, a, run))
    decreases if a.r.done then 0 else 1 + a.s.total - a.s.base, if a.s.running then 0 else 1
  {
    if a.r.done {
      run := [];
      SafeIsRight(f, a);
    } else if !a.s.running {
      var e, b := SendOneMore(f, a);
      var rest := CanComplete(f, b);
      StepFirst(f, a, e, rest);
      run := [e] + rest;
    } else {
      var first, b := RoundTrip(f, a);
      var rest := CanComplete(f, b);
      RunsJoin(f, a, first, rest);
      run := first + rest;
    }
  }

  // ---------- Dead ends ----------

  /** The sender can get to hear n: it is in flight, or a packet in flight will be answered with it, or, if strays reach
      the receiver, a stray will. */
  ghost predicate Brings(a: Net, strays: bool, n: int)
    requires Shaped(a.r)
  {
    || InFlight(a.acks, n)
    || (exists p :: p in a.data && Known(a.r, p) && Received(a.r, p).next == n)
    || (strays && n == a.r.next > 0)
  }

  /** A recovering sender that has sent everything hears duplicates in vain. */
  predicate Deaf(s: Sender) {
    s.cwnd.state == FastRecov && Next(s) == s.total
  }

  /** The timer is stopped, the window lets nothing out, and the sender will hear neither new data acknowledged nor a
      duplicate that counts. */
  ghost predicate DeadEnd(a: Net, strays: bool)
    requires Shaped(a.r)
  {
    && !a.r.done && !a.s.running && Burst(a.s) == 0
    && (forall n {:trigger Brings(a, strays, n)} ::
          Brings(a, strays, n) ==> n < a.s.base || (n == a.s.base && Deaf(a.s)))
  }

  /** Acknowledgements below the base are passed over, and duplicates of it only widen a recovering sender's window. */
  lemma {:induction false} HeardInVain(c: Reno, base: int, acks: seq<int>)
    requires forall i :: 0 <= i < |acks| ==>
               acks[i] < base || (acks[i] == base && c.state == FastRecov && c.lastAck == base)
    ensures var (d, b) := Heard(c, base, acks);
            b == base && d == c.(window := d.window) && (d == c || (c.state == FastRecov && base in acks))
    decreases acks
  {
    if acks != [] {
      forall i | 0 <= i < |acks[1..]| ensures acks[1..][i] == acks[i + 1] { }
      HeardInVain(if acks[0] == base then Acked(c, base) else c, base, acks[1..]);
    }
  }

  lemma TurnInVain(f: File, a: Net, strays: bool, w: Wakeup, n: nat)
    requires Sane(f, a) && DeadEnd(a, strays) && MaySend(f, a, w, n)
    ensures var b := Stepped(f, a, Turn(w, n));
            n == 0 && b == a.(s := b.s) && !b.s.running && Burst(b.s) == 0 && b.s.base == a.s.base
            && (Deaf(a.s) ==> Deaf(b.s))
  {
    AcksAreInRange(f, a, w, n);
    forall i | 0 <= i < |w.acks|
      ensures w.acks[i] < a.s.base
              || (w.acks[i] == a.s.base && a.s.cwnd.state == FastRecov && a.s.cwnd.lastAck == a.s.base)
    {
      assert Brings(a, strays, w.acks[i]);
    }
    HeardInVain(a.s.cwnd, a.s.base, w.acks);
    assert a.s.base in w.acks ==> Deaf(a.s) by {
      if a.s.base in w.acks { assert Brings(a, strays, a.s.base); }
    }
    DigestedIsSound(a.s, w);
    BurstFillsWindow(Digested(a.s, w));
  }

  lemma DeliveryInVain(f: File, a: Net, strays: bool, p: Packet)
    requires Sane(f, a) && DeadEnd(a, strays) && Enabled(f, a, Deliver(p))
    ensures DeadEnd(Stepped(f, a, Deliver(p)), strays)
  {
    assert Sendable(f, a, p);
    var b := Stepped(f, a, Deliver(p));
    if Known(a.r, p) {
      assert Brings(a, strays, Received(a.r, p).next);
      assert p.seqNum != a.r.next && b.r.next == a.r.next && !b.r.done;
      forall n | Brings(b, strays, n) ensures Brings(a, strays, n) {
        if InFlight(b.acks, n) && !InFlight(a.acks, n) {
          AcksAreCumulative(a.r, p);
        } else if q :| q in b.data && Known(b.r, q) && Received(b.r, q).next == n {
          assert Brings(a, strays, Received(a.r, q).next);
        }
      }
    } else {
      assert b == a;
    }
  }

  /** No step leads out of a dead end. */
  lemma StepInVain(f: File, a: Net, strays: bool, e: Step)
    requires Sane(f, a) && DeadEnd(a, strays) && Enabled(f, a, e) && (strays || !e.Garble?)
    ensures Sane(f, Stepped(f, a, e)) && DeadEnd(Stepped(f, a, e), strays)
  {
    StepIsSane(f, a, e);
    var b := Stepped(f, a, e);
    match e
    case Turn(w, n) =>
      TurnInVain(f, a, strays, w, n);
      forall m | Brings(b, strays, m) ensures Brings(a, strays, m) { }
    case Deliver(p) => DeliveryInVain(f, a, strays, p);
    case Garble(_) =>
      forall m | Brings(b, strays, m) ensures Brings(a, strays, m) { }
    case Close => assert false;
    case Lose(_, _) =>
      forall m | Brings(b, strays, m) ensures Brings(a, strays, m) {
        if p :| p in b.data && Known(b.r, p) && Received(b.r, p).next == m { assert p in a.data; }
      }
  }

  lemma {:induction false} RunInVain(f: File, a: Net, strays: bool, run: seq<Step>)
    requires Sane(f, a) && DeadEnd(a, strays) && Possible(f, a, run) && (strays || Undisturbed(run))
    ensures !End(f, a, run).r.done
    decreases run
  {
    if run != [] {
      StepInVain(f, a, strays, run[0]);
      RunInVain(f, Stepped(f, a, run[0]), strays, run[1..]);
    }
  }

  ghost predicate Completes(f: File, a: Net, strays: bool, run: seq<Step>) {
    Possible(f, a, run) && (strays || Undisturbed(run)) && Completed(f, End(f, a, run))
  }

  /** What leads from a to a state from which the transfer can be completed. */
  ghost predicate Wakes(f: File, a: Net, strays: bool, run: seq<Step>) {
    && Possible(f, a, run) && (strays || Undisturbed(run)) && Safe(f, End(f, a, run))
    && (End(f, a, run).r.done || Awake(End(f, a, run).s))
  }

  lemma StepThenWakes(f: File, a: Net, strays: bool, e: Step, run: seq<Step>)
    requires Enabled(f, a, e) && (strays || !e.Garble?) && Wakes(f, Stepped(f, a, e), strays, run)
    ensures Wakes(f, a, strays, [e] + run)
  {
    StepFirst(f, a, e, run);
  }

  /** What the window lets out but the ring has no room for is sent and lost. */
  lemma SendAndLose(f: File, a: Net, strays: bool) returns (run: seq<Step>)
    requires Safe(f, a) && !a.r.done && Burst(a.s) > 0
    ensures Wakes(f, a, strays, run)
  {
    if Room(a.s) > 0 {
      return [];
    }
    var e, x := SendOneMore(f, a);
    var lose := Lose(x.data - a.data, {});
    var b := Stepped(f, x, lose);
    StepIsSane(f, a, e);
    StepIsSane(f, x, lose);
    assert b.data == a.data;
    StepThenWakes(f, x, strays, lose, []);
    StepThenWakes(f, a, strays, e, [lose]);
    run := [e] + ([lose] + []);
  }

  /** How many more duplicates it takes until the sender sends again. */
  function Patience(s: Sender): int {
    if s.cwnd.state == FastRecov then Next(s) + 1 - s.base - s.cwnd.window else 3 - s.cwnd.dupAck
  }

  lemma HearDuplicate(s: Sender)
    requires Sound(s) && 1 <= s.base < s.total && !s.running && Burst(s) == 0 && !Deaf(s)
    ensures var t := Digested(s, Wakeup([s.base], false, 0));
            && t.base == s.base && t.total == s.total && !t.running
            && (Burst(t) > 0 || (!Deaf(t) && 0 <= Patience(t) < Patience(s)))
  {
    var w := Wakeup([s.base], false, 0);
    DigestedIsSound(s, w);
    BurstFillsWindow(s);
    assert Heard(s.cwnd, s.base, w.acks) == (Acked(s.cwnd, s.base), s.base);
  }

  /** Duplicates of the base are heard until one counts. */
  lemma {:induction false} Nudge(f: File, a: Net, strays: bool) returns (run: seq<Step>)
    requires Safe(f, a) && !a.r.done && !a.s.running && InFlight(a.acks, a.s.base) && (Burst(a.s) > 0 || !Deaf(a.s))
    ensures Wakes(f, a, strays, run)
    decreases if Burst(a.s) > 0 then 0 else 1, Patience(a.s)
  {
    if Burst(a.s) > 0 {
      run := SendAndLose(f, a, strays);
    } else {
      var k :| k in a.acks && k.ackNum == a.s.base;
      assert Timely(a, k);
      HearDuplicate(a.s);
      var e := Turn(Wakeup([a.s.base], false, 0), 0);
      StepIsSafe(f, a, e);
      var rest := Nudge(f, Stepped(f, a, e), strays);
      StepThenWakes(f, a, strays, e, rest);
      run := [e] + rest;
    }
  }

  /** An acknowledgement in flight gets the sender going. */
  lemma Hear(f: File, a: Net, strays: bool, n: int) returns (run: seq<Step>)
    requires Safe(f, a) && !a.r.done && !a.s.running && Burst(a.s) == 0 && InFlight(a.acks, n)
    requires n > a.s.base || (n == a.s.base && !Deaf(a.s))
    ensures Wakes(f, a, strays, run)
  {
    if n == a.s.base {
      run := Nudge(f, a, strays);
    } else {
      var e, _ := HearNew(f, a, n);
      StepThenWakes(f, a, strays, e, []);
      run := [e] + [];
    }
  }

  /** Wherever there is no dead end, there is a way on. */
  lemma WayOn(f: File, a: Net, strays: bool) returns (run: seq<Step>)
    requires Safe(f, a) && !a.r.done && !DeadEnd(a, strays)
    ensures Wakes(f, a, strays, run)
  {
    if a.s.running {
      return [];
    } else if Burst(a.s) > 0 {
      run := SendAndLose(f, a, strays);
      return;
    }
    var n :| Brings(a, strays, n) && (n > a.s.base || (n == a.s.base && !Deaf(a.s)));
    if InFlight(a.acks, n) {
      run := Hear(f, a, strays, n);
    } else if p :| p in a.data && Known(a.r, p) && Received(a.r, p).next == n {
      var e, b := Answer(f, a, p);
      var rest := [];
      if !b.r.done { rest := Hear(f, b, strays, n); }
      StepThenWakes(f, a, strays, e, rest);
      run := [e] + rest;
    } else {
      var e := Garble(false);
      StepIsSafe(f, a, e);
      var b := Stepped(f, a, e);
      assert AckPacket(n, false) in b.acks;
      var rest := Hear(f, b, strays, n);
      StepThenWakes(f, a, strays, e, rest);
      run := [e] + rest;
    }
  }

  /** A transfer whose ring is not overrun can still be completed, in whatever way, exactly when it is in no dead end;
      with or without strays reaching the receiver. */
  lemma DeadEndExactly(f: File, a: Net, strays: bool)
    requires Safe(f, a)
    ensures (exists run {:trigger Completes(f, a, strays, run)} :: Completes(f, a, strays, run))
            <==> !DeadEnd(a, strays)
  {
    if a.r.done {
      SafeIsRight(f, a);
      assert Completes(f, a, strays, []);
    } else if DeadEnd(a, strays) {
      forall run ensures !Completes(f, a, strays, run) {
        if Completes(f, a, strays, run) { RunInVain(f, a, strays, run); }
      }
    } else {
      var first := WayOn(f, a, strays);
      var rest := CanComplete(f, End(f, a, first));
      RunsJoin(f, a, first, rest);
      assert Completes(f, a, strays, first + rest);
    }
  }

  // ---------- Which runs end in one ----------

  ghost predicate EndsDead(f: File, strays: bool, run: seq<Step>)
    requires |f| >= 1
  {
    Possible(f, Start(f), run) && Shaped(End(f, Start(f), run).r) && DeadEnd(End(f, Start(f), run), strays)
  }

  /** All of the file has been sent, chunk 0 alone has been acknowledged, and after three more duplicates packet 1 is to
      be sent again. */
  ghost predicate Refused(f: File, a: Net) {
    && Sane(f, a) && !a.r.done && a.r.next == 1 && InFlight(a.acks, 1) && a.s.lastSent == a.s.total - 1
    && a.s.base == 1 && a.s.cwnd.state == FastRecov && a.s.cwnd.lastAck == 1 && a.s.retrans && !a.s.running
  }

  /** The timer expires and three duplicates are heard, while the socket takes nothing. */
  lemma GetRefused(f: File, a: Net) returns (run: seq<Step>)
    requires Sane(f, a) && Inflated(f, a, a.s.cwnd.window) && a.s.lastSent == a.s.total - 1
    ensures Possible(f, a, run) && Refused(f, End(f, a, run))
  {
    assert Heard(a.s.cwnd, 1, []) == (a.s.cwnd, 1);
    var e1 := Turn(TIMER, 0);
    StepIsSane(f, a, e1);
    var b := Stepped(f, a, e1);
    ThreeOnes(b.s);
    var e2 := Turn(HEAR_ONE_THRICE, 0);
    StepIsSane(f, b, e2);
    OneStep(f, b, e2);
    StepFirst(f, a, e1, [e2]);
    run := [e1] + [e2];
  }

  /** One more duplicate, with the socket writable or not, and packet 1 is forgotten. */
  lemma Forget(f: File, a: Net) returns (run: seq<Step>)
    requires Refused(f, a)
    ensures Possible(f, a, run) && Shaped(End(f, a, run).r) && DeadEnd(End(f, a, run), true)
  {
    OneMoreDuplicate(a.s);
    var e1 := Turn(HEAR_ONE, 0);
    StepIsSane(f, a, e1);
    var b := Stepped(f, a, e1);
    var e2 := Lose(b.data, {});
    StepIsSane(f, b, e2);
    var c := Stepped(f, b, e2);
    forall n | Brings(c, true, n) ensures n == 1 {
      if k :| k in c.acks && k.ackNum == n { assert Timely(c, k); }
    }
    OneStep(f, b, e2);
    StepFirst(f, a, e1, [e2]);
    run := [e1] + [e2];
  }

  /** For any file of two chunks or more: the timer is stopped because packet 1 is to be sent again, the socket refuses
      it, and a late duplicate makes the sender forget about it. */
  lemma DeadEndRun(f: File) returns (run: seq<Step>)
    requires 1 <= |f| < MODULUS && ChunkCount(|f|) >= 2
    ensures EndsDead(f, true, run)
  {
    var first := WindowIsNotCapped(f, Max(5, ChunkCount(|f|)));
    var a := End(f, Start(f), first);
    StartIsSane(f);
    NothingIsUndone(f, Start(f), first);
    var second := GetRefused(f, a);
    var third := Forget(f, End(f, a, second));
    RunsJoin(f, a, second, third);
    RunsJoin(f, Start(f), first, second + third);
    run := first + (second + third);
  }

  /** Until something is acknowledged the sender is never at a loss. */
  ghost predicate FirstIsPending(s: Sender) {
    s.base == 0 ==> s.running || s.retrans || s.lastSent == NONE
  }

  lemma {:induction false} FirstStaysPending(f: File, a: Net, run: seq<Step>)
    requires Sane(f, a) && FirstIsPending(a.s) && Possible(f, a, run)
    ensures FirstIsPending(End(f, a, run).s)
    decreases run
  {
    if run != [] {
      var e := run[0];
      StepIsSane(f, a, e);
      if e.Turn? {
        AcksAreInRange(f, a, e.w, e.n);
        HeardMovesBase(a.s.cwnd, a.s.base, AckLimit(a.s), e.w.acks);
        DigestedIsSound(a.s, e.w);
        BurstFillsWindow(Digested(a.s, e.w));
        if e.w.acks != [] { HighestIsReached(Max(a.s.base, e.w.acks[0]), e.w.acks[1..], a.r.next); }
      }
      FirstStaysPending(f, Stepped(f, a, e), run[1..]);
    }
  }

  lemma OneChunkNeverDead(f: File, strays: bool, run: seq<Step>)
    requires 1 <= |f| < MODULUS && ChunkCount(|f|) == 1
    ensures !EndsDead(f, strays, run)
  {
    if Possible(f, Start(f), run) {
      StartIsSane(f);
      NothingIsUndone(f, Start(f), run);
      FirstStaysPending(f, Start(f), run);
      BurstFillsWindow(End(f, Start(f), run).s);
    }
  }

  lemma FewerStrays(a: Net)
    requires Shaped(a.r) && DeadEnd(a, true)
    ensures DeadEnd(a, false)
  {
    forall n | Brings(a, false, n) ensures Brings(a, true, n) { }
  }

  /** A dead end can be reached exactly when the file has two chunks or more. */
  lemma DeadEndReachableExactly(f: File, strays: bool)
    requires 1 <= |f| < MODULUS
    ensures (exists run {:trigger EndsDead(f, strays, run)} :: EndsDead(f, strays, run)) <==> ChunkCount(|f|) >= 2
  {
    if ChunkCount(|f|) >= 2 {
      var run := DeadEndRun(f);
      if !strays { FewerStrays(End(f, Start(f), run)); }
      assert EndsDead(f, strays, run);
    } else {
      forall run ensures !EndsDead(f, strays, run) {
        OneChunkNeverDead(f, strays, run);
      }
    }
  }

  /** The socket never refuses a packet. */
  ghost predicate NeverRefused(f: File, a: Net, run: seq<Step>)
    requires Possible(f, a, run)
    decreases run
  {
    || run == []
    || ((run[0].Turn? ==> run[0].n == Burst(Digested(a.s, run[0].w)))
        && NeverRefused(f, Stepped(f, a, run[0]), run[1..]))
  }

  /** The sender has not begun, or will be back. */
  predicate Begun(s: Sender) {
    s.lastSent == NONE || Alive(s)
  }

  lemma {:induction false} StaysAlive(f: File, a: Net, run: seq<Step>)
    requires Sane(f, a) && Begun(a.s) && Possible(f, a, run) && NeverRefused(f, a, run)
    ensures Begun(End(f, a, run).s)
    decreases run
  {
    if run != [] {
      var e := run[0];
      StepIsSane(f, a, e);
      if e.Turn? {
        AcksAreInRange(f, a, e.w, e.n);
        assert e.w.acks != [] ==> e.w.acks[0] >= 1;
        if Alive(a.s) { TurnKeepsAlive(a.s, e.w); }
      }
      StaysAlive(f, Stepped(f, a, e), run[1..]);
    }
  }

  /** Refusals by the socket are what it takes: without them no run comes to a dead end. */
  lemma DeadEndNeedsRefusal(f: File, strays: bool, run: seq<Step>)
    requires 1 <= |f| < MODULUS && Possible(f, Start(f), run) && NeverRefused(f, Start(f), run)
    ensures !EndsDead(f, strays, run)
  {
    StartIsSane(f);
    NothingIsUndone(f, Start(f), run);
    StaysAlive(f, Start(f), run);
    BurstFillsWindow(End(f, Start(f), run).s);
  }
}
