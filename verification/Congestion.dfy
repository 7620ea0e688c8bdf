/** The sender's congestion window: a Reno-shaped machine (sections 3.1 and 3.2 of RFC 5681) whose
    reactions to acknowledgements are function pointers swapped along with the state. */
module Congestion {

  import opened Packets

  datatype State = SlowStart | CongestAvoid | FastRecov | FastRecovRetrans

  /** The fields that matter, without the function pointers. */
  datatype Reno = Reno(
    window: int, ackThisRound: int, ssthresh: int, timeoutAck: int, lastAck: int, dupAck: int, state: State)

  function Initial(): Reno {
    Reno(4, 0, 4096, NONE, NONE, 0, SlowStart)
  }

  function Halved(window: int): int {
    if window > 2 then window / 2 else 2
  }

  /** An acknowledgement that differs from the last one. */
  function NewAck(c: Reno, ack: int): Reno {
    var d := c.(dupAck := 0, lastAck := ack);
    match c.state
    case SlowStart =>
      if c.window + 1 >= c.ssthresh then d.(window := c.window + 1, state := CongestAvoid, ackThisRound := 0)
      else d.(window := c.window + 1)
    case CongestAvoid =>
      var acked := c.ackThisRound + Minus32(ack, c.lastAck);
      if acked >= c.window then d.(window := c.window + 1, ackThisRound := 0) else d.(ackThisRound := acked)
    case _ => d.(window := c.ssthresh, state := CongestAvoid, ackThisRound := 0)
  }

  /** The last acknowledgement once more. */
  function DupAck(c: Reno): Reno {
    if c.state == FastRecov || c.state == FastRecovRetrans then c.(window := c.window + 1)
    else if c.dupAck + 1 < 3 then c.(dupAck := c.dupAck + 1)
    else
      var half := Halved(c.window);
      c.(dupAck := c.dupAck + 1, ssthresh := half, window := half + 3, state := FastRecovRetrans)
  }

  function Acked(c: Reno, ack: int): Reno {
    if ack == c.lastAck then DupAck(c) else NewAck(c, ack)
  }

  /** The third duplicate is reported once. */
  function Confirmed(c: Reno): Reno {
    if c.state == FastRecovRetrans then c.(state := FastRecov) else c
  }

  function TimedOut(c: Reno, ack: int): Reno {
    var d := if ack != c.timeoutAck then c.(timeoutAck := ack, ssthresh := Halved(c.window)) else c;
    d.(dupAck := 0, window := 1, state := SlowStart)
  }

  datatype Event = Ack(ack: int) | Confirm | Timeout(base: int)

  function Step(c: Reno, e: Event): Reno {
    match e
    case Ack(ack) => Acked(c, ack)
    case Confirm => Confirmed(c)
    case Timeout(base) => TimedOut(c, base)
  }

  function After(c: Reno, run: seq<Event>): Reno {
    if run == [] then c else Step(After(c, run[..|run| - 1]), run[|run| - 1])
  }

  /** What holds in every state of every run. */
  ghost predicate Healthy(c: Reno) {
    && c.window >= 1 && c.ssthresh >= 1 && c.dupAck >= 0
    && match c.state
       case SlowStart => (c.window < c.ssthresh || c.window == 1) && c.dupAck < 3
       case CongestAvoid => c.window >= c.ssthresh && 0 <= c.ackThisRound < c.window && c.dupAck < 3
       case _ => c.window >= c.ssthresh + 3 && c.dupAck == 3
  }

  lemma StepKeepsHealthy(c: Reno, e: Event)
    requires Healthy(c)
    ensures Healthy(Step(c, e))
  {
  }

  lemma {:induction false} RunIsHealthy(c: Reno, run: seq<Event>)
    requires Healthy(c)
    ensures Healthy(After(c, run))
  {
    if run != [] {
      RunIsHealthy(c, run[..|run| - 1]);
    }
  }

  /** Whatever acknowledgements and timeouts arrive, in whatever order. */
  lemma AlwaysHealthy(run: seq<Event>)
    ensures Healthy(After(Initial(), run))
  {
    RunIsHealthy(Initial(), run);
  }

  /** The branches that set the threshold: a third duplicate outside recovery, and a timeout at a base that has not
      timed out last. */
  predicate Halves(c: Reno, e: Event) {
    match e
    case Ack(ack) => ack == c.lastAck && (c.state == SlowStart || c.state == CongestAvoid) && c.dupAck + 1 >= 3
    case Confirm => false
    case Timeout(base) => base != c.timeoutAck
  }

  lemma HalvedIsTwoOrMore(window: int)
    requires window >= 1
    ensures Halved(window) >= 2 <==> window != 3
  {
    assert window >= 4 ==> window / 2 >= 2;
  }

  /** A step takes the threshold below 2 segments exactly when it sets it while the window is 3. */
  lemma ThresholdStep(c: Reno, e: Event)
    requires Healthy(c)
    ensures !Halves(c, e) ==> Step(c, e).ssthresh == c.ssthresh
    ensures c.ssthresh >= 2 ==> (Step(c, e).ssthresh >= 2 <==> !(Halves(c, e) && c.window == 3))
  {
    HalvedIsTwoOrMore(c.window);
  }

  lemma AfterOneMore(c: Reno, run: seq<Event>, k: nat)
    requires k < |run|
    ensures After(c, run[..k + 1]) == Step(After(c, run[..k]), run[k])
  {
    assert run[..k + 1][..k] == run[..k];
  }

  ghost predicate TwoOrMoreAt(c: Reno, run: seq<Event>, k: int)
    requires 0 <= k <= |run|
  {
    After(c, run[..k]).ssthresh >= 2
  }

  /** Event k of the run sets the threshold while the window is 3. */
  ghost predicate HalvesThree(c: Reno, run: seq<Event>, k: int)
    requires 0 <= k < |run|
  {
    Halves(After(c, run[..k]), run[k]) && After(c, run[..k]).window == 3
  }

  lemma {:induction false} TwoOrMoreUpTo(c: Reno, run: seq<Event>, k: nat)
    requires Healthy(c) && c.ssthresh >= 2 && k <= |run|
    requires forall i {:trigger HalvesThree(c, run, i)} :: 0 <= i < |run| ==> !HalvesThree(c, run, i)
    ensures TwoOrMoreAt(c, run, k)
  {
    if k > 0 {
      TwoOrMoreUpTo(c, run, k - 1);
      RunIsHealthy(c, run[..k - 1]);
      AfterOneMore(c, run, k - 1);
      assert !HalvesThree(c, run, k - 1);
      ThresholdStep(After(c, run[..k - 1]), run[k - 1]);
    }
  }

  /** The threshold stays at 2 segments or more throughout a run if and only if no event of the run sets it while the
      window is 3. */
  lemma ThresholdOverRuns(c: Reno, run: seq<Event>)
    requires Healthy(c) && c.ssthresh >= 2
    ensures (forall k {:trigger TwoOrMoreAt(c, run, k)} :: 0 <= k <= |run| ==> TwoOrMoreAt(c, run, k))
       <==> (forall k {:trigger HalvesThree(c, run, k)} :: 0 <= k < |run| ==> !HalvesThree(c, run, k))
  {
    forall k | 0 <= k < |run|
      ensures TwoOrMoreAt(c, run, k) ==> (TwoOrMoreAt(c, run, k + 1) <==> !HalvesThree(c, run, k))
    {
      RunIsHealthy(c, run[..k]);
      AfterOneMore(c, run, k);
      ThresholdStep(After(c, run[..k]), run[k]);
    }
    if forall k {:trigger HalvesThree(c, run, k)} :: 0 <= k < |run| ==> !HalvesThree(c, run, k) {
      forall k | 0 <= k <= |run| ensures TwoOrMoreAt(c, run, k) {
        TwoOrMoreUpTo(c, run, k);
      }
    } else {
      var k :| 0 <= k < |run| && HalvesThree(c, run, k);
      assert TwoOrMoreAt(c, run, k) ==> !TwoOrMoreAt(c, run, k + 1);
    }
  }

  lemma RunsOn(c: Reno, run: seq<Event>, e: Event)
    ensures After(c, run + [e]) == Step(After(c, run), e)
  {
    assert (run + [e])[..|run|] == run;
  }

  lemma {:induction false} RunJoins(c: Reno, run: seq<Event>, rest: seq<Event>)
    ensures After(c, run + rest) == After(After(c, run), rest)
  {
    if rest == [] {
      assert run + rest == run;
    } else {
      var k := |rest| - 1;
      var most := run + rest[..k];
      RunJoins(c, run, rest[..k]);
      RunsOn(c, most, rest[k]);
      RunsOn(After(c, run), rest[..k], rest[k]);
      assert rest == rest[..k] + [rest[k]];
      assert run + rest == most + [rest[k]];
    }
  }

  /** n duplicates in a row, each batch of them confirmed. */
  function DupAcks(c: Reno, n: nat): Reno {
    if n == 0 then c else Confirmed(DupAck(DupAcks(c, n - 1)))
  }

  /** A loss noticed by duplicates: the threshold becomes half the window, the window is inflated by one segment for
      every duplicate, and the acknowledgement that ends recovery deflates it to the threshold, in congestion
      avoidance. */
  lemma {:induction false} LossHalvesWindow(c: Reno, n: nat, ack: int)
    requires Healthy(c) && (c.state == SlowStart || c.state == CongestAvoid) && c.dupAck == 0
    requires ack != c.lastAck && n >= 3
    ensures var d := DupAcks(c, n);
            && d == c.(dupAck := 3, ssthresh := Halved(c.window), window := Halved(c.window) + n, state := FastRecov)
            && Acked(d, ack).window == Halved(c.window) && Acked(d, ack).state == CongestAvoid
            && (c.window > 2 ==> 2 * Halved(c.window) <= c.window <= 2 * Halved(c.window) + 1)
  {
    if n == 3 {
      assert DupAcks(c, 1) == c.(dupAck := 1);
      assert DupAcks(c, 2) == c.(dupAck := 2);
    } else {
      LossHalvesWindow(c, n - 1, ack);
    }
  }

  /** Timeouts without progress in between halve the threshold only once. */
  lemma RepeatedTimeoutHalvesOnce(c: Reno, base: int)
    ensures TimedOut(TimedOut(c, base), base) == TimedOut(c, base)
    ensures base != c.timeoutAck ==> TimedOut(c, base).ssthresh == Halved(c.window)
    ensures base == c.timeoutAck ==> TimedOut(c, base).ssthresh == c.ssthresh
  {
  }

  // ---------- What the events of a run tell about the machine ----------

  /** The last number acknowledged. */
  function LastAck(run: seq<Event>): int {
    if run == [] then NONE
    else match run[|run| - 1]
      case Ack(ack) => ack
      case _ => LastAck(run[..|run| - 1])
  }

  /** How often the last acknowledgement has been repeated since it was first heard or since the last timeout, whichever
      was later. */
  function Repeated(run: seq<Event>): nat {
    if run == [] then 0
    else
      var before := run[..|run| - 1];
      match run[|run| - 1]
      case Ack(ack) => if ack == LastAck(before) then Repeated(before) + 1 else 0
      case Confirm => Repeated(before)
      case Timeout(_) => 0
  }

  /** The base of the last timeout. */
  function LastTimeout(run: seq<Event>): int {
    if run == [] then NONE
    else match run[|run| - 1]
      case Timeout(base) => base
      case _ => LastTimeout(run[..|run| - 1])
  }

  /** Acknowledgements since the last timeout that differ from the one before. */
  function NewAcks(run: seq<Event>): nat {
    if run == [] then 0
    else
      var before := run[..|run| - 1];
      match run[|run| - 1]
      case Ack(ack) => NewAcks(before) + if ack == LastAck(before) then 0 else 1
      case Confirm => NewAcks(before)
      case Timeout(_) => 0
  }

  /** The window slow start has begun with. */
  function Opening(run: seq<Event>): int {
    if run == [] then 4 else if run[|run| - 1].Timeout? then 1 else Opening(run[..|run| - 1])
  }

  /** Some acknowledgement has been repeated three times since the last timeout. */
  predicate LostSome(run: seq<Event>) {
    run != [] && !run[|run| - 1].Timeout? && (Repeated(run) >= 3 || LostSome(run[..|run| - 1]))
  }

  /** The third repetition has not been confirmed yet. */
  predicate Unconfirmed(run: seq<Event>) {
    run != [] && run[|run| - 1].Ack? && Repeated(run) >= 3 && (Repeated(run) == 3 || Unconfirmed(run[..|run| - 1]))
  }

  /** Event e, coming after the run, is a loss: a third repetition, or a timeout at another base than the last. */
  predicate IsLoss(run: seq<Event>, e: Event) {
    match e
    case Ack(ack) => ack == LastAck(run) && Repeated(run) == 2
    case Confirm => false
    case Timeout(base) => base != LastTimeout(run)
  }

  /** The machine's marks, its state, and its window in slow start and recovery, read off the events alone: it recovers
      exactly while the last acknowledgement has been repeated three times or more, with a window of the threshold and
      one segment for each repetition, and slow start has opened the window by one for each new acknowledgement. */
  ghost predicate Told(run: seq<Event>, c: Reno) {
    && c.lastAck == LastAck(run) && c.timeoutAck == LastTimeout(run) && c.dupAck == Min(3, Repeated(run))
    && (if Repeated(run) >= 3 then
          c.state == (if Unconfirmed(run) then FastRecovRetrans else FastRecov)
          && c.window == c.ssthresh + Repeated(run)
        else if !LostSome(run) && (NewAcks(run) == 0 || Opening(run) + NewAcks(run) < c.ssthresh) then
          c.state == SlowStart && c.window == Opening(run) + NewAcks(run)
        else c.state == CongestAvoid)
  }

  lemma OneMoreEvent(run: seq<Event>, e: Event)
    ensures var more := run + [e];
            match e
            case Ack(ack) =>
              var again := ack == LastAck(run);
              && LastAck(more) == ack && Repeated(more) == (if again then Repeated(run) + 1 else 0)
              && LastTimeout(more) == LastTimeout(run) && Opening(more) == Opening(run)
              && NewAcks(more) == (if again then NewAcks(run) else NewAcks(run) + 1)
              && (LostSome(more) <==> LostSome(run) || Repeated(more) >= 3)
              && (Unconfirmed(more) <==> Repeated(more) == 3 || (Repeated(more) > 3 && Unconfirmed(run)))
            case Confirm =>
              && LastAck(more) == LastAck(run) && Repeated(more) == Repeated(run)
              && LastTimeout(more) == LastTimeout(run) && Opening(more) == Opening(run)
              && NewAcks(more) == NewAcks(run) && (LostSome(more) <==> LostSome(run) || Repeated(run) >= 3)
              && !Unconfirmed(more)
            case Timeout(base) =>
              && LastAck(more) == LastAck(run) && Repeated(more) == 0
              && LastTimeout(more) == base && Opening(more) == 1
              && NewAcks(more) == 0 && !LostSome(more) && !Unconfirmed(more)
  {
    assert (run + [e])[..|run|] == run;
  }

  lemma {:induction false} LossIsRemembered(run: seq<Event>)
    requires Repeated(run) >= 3
    ensures LostSome(run)
  {
  }

  lemma ToldOnce(run: seq<Event>, e: Event)
    requires Told(run, After(Initial(), run)) && Healthy(After(Initial(), run))
    ensures Told(run + [e], Step(After(Initial(), run), e))
  {
    OneMoreEvent(run, e);
    if Repeated(run) >= 3 { LossIsRemembered(run); }
  }

  lemma {:induction false} HistoryTells(run: seq<Event>)
    ensures Told(run, After(Initial(), run))
  {
    if run != [] {
      var before := run[..|run| - 1];
      HistoryTells(before);
      AlwaysHealthy(before);
      ToldOnce(before, run[|run| - 1]);
      RunsOn(Initial(), before, run[|run| - 1]);
      assert before + [run[|run| - 1]] == run;
    }
  }

  /** An acknowledgement starts recovery exactly when it is the third repetition in a row of one number, with no other
      acknowledgement and no timeout in between. */
  lemma RecoveryStartsAtThird(run: seq<Event>, ack: int)
    ensures var c, d := After(Initial(), run), After(Initial(), run + [Ack(ack)]);
            (c.state == SlowStart || c.state == CongestAvoid) && d.state == FastRecovRetrans
            <==> ack == LastAck(run) && Repeated(run) == 2
  {
    HistoryTells(run);
    HistoryTells(run + [Ack(ack)]);
    assert (run + [Ack(ack)])[..|run|] == run;
  }

  /** The threshold is half the window, or 2 for a window of up to 2, as it was before the last loss, and nothing else
      sets it; a timeout leaves a window of 1, and what ends recovery leaves a window of the threshold. */
  lemma LossSetsThreshold(run: seq<Event>, e: Event)
    ensures var c, d := After(Initial(), run), After(Initial(), run + [e]);
            && d.ssthresh == (if !IsLoss(run, e) then c.ssthresh else if c.window > 2 then c.window / 2 else 2)
            && (e.Timeout? ==> d.window == 1)
            && (Repeated(run) >= 3 && e.Ack? && e.ack != LastAck(run) ==>
                  d.window == c.ssthresh && d.state == CongestAvoid)
  {
    HistoryTells(run);
    RunsOn(Initial(), run, e);
  }

  /** Congestion avoidance begins with an empty round, at the threshold, or at 2 when that is 1; in it, only new
      acknowledgements count: when the round's segments reach the window, the window grows by one and the next round
      begins. */
  lemma RoundsOfAvoidance(run: seq<Event>, e: Event)
    ensures var c, d := After(Initial(), run), After(Initial(), run + [e]);
            && (d.state == CongestAvoid && c.state != CongestAvoid ==>
                  d.ackThisRound == 0 && (d.window == d.ssthresh || (d.ssthresh == 1 && d.window == 2)))
            && (c.state == d.state == CongestAvoid ==>
                  var n := c.ackThisRound + if e.Ack? && e.ack != LastAck(run) then Minus32(e.ack, LastAck(run)) else 0;
                  if n >= c.window then d.window == c.window + 1 && d.ackThisRound == 0
                  else d.window == c.window && d.ackThisRound == n)
            && (d.state != CongestAvoid ==> d.ackThisRound == c.ackThisRound)
  {
    HistoryTells(run);
    AlwaysHealthy(run);
    RunsOn(Initial(), run, e);
  }

  // ---------- Growth in congestion avoidance ----------

  /** Segments it takes to grow from nothing to this window, one per window's worth. */
  ghost function Invested(c: Reno): int {
    c.window * (c.window - 1) / 2 + c.ackThisRound
  }

  /** c moves on by acknowledgements alone and stays in congestion avoidance; `acks` are ascending. */
  ghost predicate Avoiding(c: Reno, acks: seq<int>)
    decreases acks
  {
    && c.state == CongestAvoid && 0 <= c.lastAck < MODULUS
    && (acks != [] ==> c.lastAck <= acks[0] < MODULUS && Avoiding(Acked(c, acks[0]), acks[1..]))
  }

  function AckedAll(c: Reno, acks: seq<int>): Reno
    decreases acks
  {
    if acks == [] then c else AckedAll(Acked(c, acks[0]), acks[1..])
  }

  lemma WindowPlusOne(w: int)
    ensures (w + 1) * w / 2 == w * (w - 1) / 2 + w
  {
    assert (w + 1) * w == w * (w - 1) + 2 * w;
  }

  lemma AvoidingStep(c: Reno, ack: int)
    requires Healthy(c) && c.state == CongestAvoid && 0 <= c.lastAck <= ack < MODULUS
    requires Acked(c, ack).state == CongestAvoid
    ensures Invested(Acked(c, ack)) <= Invested(c) + (ack - c.lastAck)
    ensures Acked(c, ack).window <= c.window + 1 && Acked(c, ack).lastAck == ack
  {
    assert Minus32(ack, c.lastAck) == ack - c.lastAck;
    WindowPlusOne(c.window);
  }

  /** The window grows by no more than one segment per window's worth of segments acknowledged. */
  lemma {:induction false} AvoidanceGrowsSlowly(c: Reno, acks: seq<int>)
    requires Healthy(c) && Avoiding(c, acks)
    ensures var d := AckedAll(c, acks);
            Healthy(d) && d.state == CongestAvoid && d.lastAck >= c.lastAck
            && Invested(d) <= Invested(c) + (d.lastAck - c.lastAck)
    decreases |acks|
  {
    if acks != [] {
      AvoidingStep(c, acks[0]);
      AvoidanceGrowsSlowly(Acked(c, acks[0]), acks[1..]);
    }
  }

  /** From the start, acknowledgements in order open the window one by one up to the threshold of 4096, where congestion
      avoidance begins. */
  lemma {:induction false} SlowStartOpens(k: nat) returns (run: seq<Event>)
    requires k <= 4092
    ensures |run| == k && (forall i :: 0 <= i < k ==> run[i] == Ack(i))
    ensures var c := After(Initial(), run);
            c.window == 4 + k && c.lastAck == (if k == 0 then NONE else k - 1)
            && c.state == (if k == 4092 then CongestAvoid else SlowStart)
            && c.ackThisRound == 0 && c.ssthresh == 4096
  {
    if k == 0 {
      run := [];
    } else {
      var r := SlowStartOpens(k - 1);
      run := r + [Ack(k - 1)];
      RunsOn(Initial(), r, Ack(k - 1));
    }
  }

  // ---------- The record of the sender ----------

  datatype AckHandler = AckSlowStart | AckCongAvoid | AckFastRecov
  datatype DupHandler = DupAckCounting | DupAckFastRecov

  class Cwnd {
    var window: int
    var ackThisRound: int
    var ssthresh: int
    var timeoutAck: int
    var lastAck: int
    var dupAck: int
    var state: State
    var onAck: AckHandler
    var onDupAck: DupHandler

    /** The handlers are those of the state. */
    ghost predicate Valid()
      reads this
    {
      && onAck == (match state case SlowStart => AckSlowStart case CongestAvoid => AckCongAvoid case _ => AckFastRecov)
      && onDupAck == (if state == SlowStart || state == CongestAvoid then DupAckCounting else DupAckFastRecov)
    }

    ghost function Value(): Reno
      reads this
    {
      Reno(window, ackThisRound, ssthresh, timeoutAck, lastAck, dupAck, state)
    }

    constructor ()
      ensures Valid() && Value() == Initial()
    {
      window, ackThisRound, ssthresh, timeoutAck, lastAck, dupAck := 4, 0, 4096, NONE, NONE, 0;
      state, onAck, onDupAck := SlowStart, AckSlowStart, DupAckCounting;
    }

    method ClearDup()
      modifies `dupAck
      ensures dupAck == 0
    {
      dupAck := 0;
    }

    method HalveWindow()
      modifies `ssthresh
      ensures ssthresh == Halved(window)
    {
      ssthresh := if window > 2 then window / 2 else 2;
    }

    method ToSlowStart()
      modifies `state, `onAck, `onDupAck
      ensures Valid() && state == SlowStart
    {
      state, onAck, onDupAck := SlowStart, AckSlowStart, DupAckCounting;
    }

    method ToCongAvoid()
      modifies `state, `onAck, `onDupAck, `ackThisRound
      ensures Valid() && state == CongestAvoid && ackThisRound == 0
    {
      state, onAck, onDupAck := CongestAvoid, AckCongAvoid, DupAckCounting;
      ackThisRound := 0;
    }

    method ToFastRecovRetrans()
      modifies `state, `onAck, `onDupAck
      ensures Valid() && state == FastRecovRetrans
    {
      state, onAck, onDupAck := FastRecovRetrans, AckFastRecov, DupAckFastRecov;
    }

    /** The pointer for new acknowledgements, called. */
    method CallAck(ack: int)
      requires Valid()
      modifies this
      ensures Valid() && Value() == NewAck(old(Value()), ack).(lastAck := old(lastAck))
    {
      match onAck {
        case AckSlowStart =>
          ClearDup();
          window := window + 1;
          if window >= ssthresh { ToCongAvoid(); }
        case AckCongAvoid =>
          ClearDup();
          ackThisRound := ackThisRound + Minus32(ack, lastAck);
          if ackThisRound >= window {
            window := window + 1;
            ackThisRound := 0;
          }
        case AckFastRecov =>
          window := ssthresh;
          ClearDup();
          ToCongAvoid();
      }
    }

    /** The pointer for duplicates, called. */
    method CallDupAck()
      requires Valid()
      modifies this
      ensures Valid() && Value() == DupAck(old(Value()))
    {
      match onDupAck {
        case DupAckCounting =>
          dupAck := dupAck + 1;
          if dupAck >= 3 {
            HalveWindow();
            window := ssthresh + 3;
            ToFastRecovRetrans();
          }
        case DupAckFastRecov =>
          window := window + 1;
      }
    }

    method AckCwnd(ackNum: int)
      requires Valid()
      modifies this
      ensures Valid() && Value() == Acked(old(Value()), ackNum)
    {
      if ackNum == lastAck {
        CallDupAck();
      } else {
        CallAck(ackNum);
        lastAck := ackNum;
      }
    }

    method ConfirmThreeDups() returns (confirmed: bool)
      requires Valid()
      modifies this
      ensures Valid() && Value() == Confirmed(old(Value())) && confirmed == old(state).FastRecovRetrans?
    {
      if state == FastRecovRetrans {
        state := FastRecov;
        confirmed := true;
      } else {
        confirmed := false;
      }
    }

    method TimeoutCwnd(ack: int)
      requires Valid()
      modifies this
      ensures Valid() && Value() == TimedOut(old(Value()), ack)
    {
      if ack != timeoutAck {
        timeoutAck := ack;
        HalveWindow();
      }
      ClearDup();
      window := 1;
      ToSlowStart();
    }
  }
}
