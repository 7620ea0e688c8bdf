/** The sender's bookkeeping: which packets to send, what acknowledgements and timeouts change, and when the
    retransmission timer runs. */
module Sender {
  import opened Packets
  import opened Congestion

  /** totalSeq, sendBase, lastSent, lastChunk, retrans and the timer's running flag next to the congestion window. */
  datatype Sender = Sender(
    cwnd: Reno, total: int, base: int, lastSent: int, lastChunk: int, retrans: bool, running: bool)

  /** Unsigned 64-bit arithmetic, cut down to 32 bits at the end. */
  function Started(totalBytes: int): Sender {
    var total := (1 + (totalBytes - 1) % 0x1_0000_0000_0000_0000 / MAX_PAYLOAD_LEN) % MODULUS;
    var last := totalBytes % MAX_PAYLOAD_LEN;
    Sender(Initial(), total, 0, NONE, if last == 0 then MAX_PAYLOAD_LEN else last, false, false)
  }

  /** The chunk lengths add up to the file exactly when it is neither empty nor too long for 32-bit chunk numbers. */
  lemma StartedIsExact(totalBytes: int)
    requires 0 <= totalBytes < 0x1_0000_0000_0000_0000
    ensures var s := Started(totalBytes);
            (s.total - 1) * MAX_PAYLOAD_LEN + s.lastChunk == totalBytes
            <==> 1 <= totalBytes <= MAX_PAYLOAD_LEN * (MODULUS - 1)
  {
    if totalBytes > 0 {
      var n := (totalBytes - 1) / MAX_PAYLOAD_LEN;
      assert totalBytes == n * MAX_PAYLOAD_LEN + (totalBytes - 1) % MAX_PAYLOAD_LEN + 1;
    }
  }

  lemma StartedCounts(totalBytes: int)
    requires 1 <= totalBytes <= MAX_PAYLOAD_LEN * (MODULUS - 1)
    ensures Started(totalBytes).total == ChunkCount(totalBytes)
    ensures (ChunkCount(totalBytes) - 1) * MAX_PAYLOAD_LEN + Started(totalBytes).lastChunk == totalBytes
  {
    StartedIsExact(totalBytes);
  }

  function Next(s: Sender): int {
    if s.retrans || s.lastSent < s.base then s.base else Succ32(s.lastSent)
  }

  predicate Allowed(s: Sender, seqNum: int) {
    (s.retrans || Minus32(seqNum, s.base) < s.cwnd.window) && seqNum < s.total
  }

  /** The window's end: the first number that must not be sent. */
  function Limit(s: Sender): int {
    Min(s.base + s.cwnd.window, s.total)
  }

  /** Nothing has been acknowledged yet, or the last acknowledgement is the base. */
  ghost predicate BaseIsLastAck(c: Reno, base: int) {
    || c.lastAck == base
    || (c.lastAck == NONE && base == 0 && c.state == SlowStart && c.dupAck == 0)
  }

  /** What holds whenever the event loop waits. */
  ghost predicate Sound(s: Sender) {
    && Healthy(s.cwnd) && s.cwnd.state != FastRecovRetrans && BaseIsLastAck(s.cwnd, s.base)
    && 1 <= s.total < NONE && 0 <= s.base <= s.total
    && ((s.lastSent == NONE && s.base == 0) || 0 <= s.lastSent < s.total)
  }

  lemma StartsSound(totalBytes: int)
    requires 1 <= totalBytes <= MAX_PAYLOAD_LEN * (NONE - 1)
    ensures Sound(Started(totalBytes))
  {
    StartedCounts(totalBytes);
  }

  // ---------- Acknowledgements ----------

  /** What a batch of acknowledgements does to the window and the base; late ones are passed over. */
  function Heard(c: Reno, base: int, acks: seq<int>): (Reno, int)
    decreases acks
  {
    if acks == [] then (c, base)
    else if acks[0] >= base then Heard(Acked(c, acks[0]), acks[0], acks[1..])
    else Heard(c, base, acks[1..])
  }

  ghost predicate InRange(limit: int, acks: seq<int>) {
    forall i :: 0 <= i < |acks| ==> 0 <= acks[i] <= limit
  }

  /** No acknowledgement is for more than the file, nor for anything before something was sent. */
  function AckLimit(s: Sender): int {
    if s.lastSent == NONE then 0 else s.total
  }

  /** The greatest number in a batch, or the old base. */
  function Highest(base: int, acks: seq<int>): int
    decreases acks
  {
    if acks == [] then base else Highest(Max(base, acks[0]), acks[1..])
  }

  /** The base moves to the highest acknowledgement, and the window machine's last acknowledgement moves along:
      its unsigned difference never wraps. */
  lemma {:induction false} HeardMovesBase(c: Reno, base: int, limit: int, acks: seq<int>)
    requires Healthy(c) && BaseIsLastAck(c, base) && 0 <= base <= limit < NONE && InRange(limit, acks)
    ensures var (d, b) := Heard(c, base, acks);
            Healthy(d) && BaseIsLastAck(d, b) && b == Highest(base, acks) && base <= b <= limit
    decreases acks
  {
    if acks != [] {
      var rest := acks[1..];
      assert InRange(limit, rest) by {
        forall i | 0 <= i < |rest| ensures 0 <= rest[i] <= limit { assert rest[i] == acks[i + 1]; }
      }
      if acks[0] >= base {
        StepKeepsHealthy(c, Ack(acks[0]));
        HeardMovesBase(Acked(c, acks[0]), acks[0], limit, rest);
      } else {
        HeardMovesBase(c, base, limit, rest);
      }
    }
  }

  /** In congestion avoidance the machine adds what was newly acknowledged, no more and no less. */
  lemma AvoidanceCountsNewSegments(c: Reno, base: int, ack: int)
    requires Healthy(c) && BaseIsLastAck(c, base) && c.state == CongestAvoid && 0 <= base < ack < NONE
    ensures var d := Acked(c, ack);
            if c.ackThisRound + (ack - base) >= c.window then d.window == c.window + 1 && d.ackThisRound == 0
            else d.window == c.window && d.ackThisRound == c.ackThisRound + (ack - base)
  {
  }

  datatype Pending = Pending(base: int, threeDups: bool)

  function Acknowledged(s: Sender, acks: seq<int>): (Sender, Pending) {
    var (c, b) := Heard(s.cwnd, s.base, acks);
    (s.(cwnd := Confirmed(c)), Pending(b, c.state == FastRecovRetrans))
  }

  function Merged(s: Sender, p: Pending, hasTimeout: bool): Sender {
    if s.base < p.base then
      var t := s.(base := p.base, retrans := p.threeDups);
      t.(running := !t.retrans && t.base < Next(t))
    else if p.threeDups then s.(retrans := true, running := false)
    else if hasTimeout then s.(retrans := true, running := false, cwnd := TimedOut(s.cwnd, s.base))
    else s.(retrans := false)
  }

  /** What one wake-up brings: acknowledgements, and the timer's descriptor with its count of expirations. */
  datatype Wakeup = Wakeup(acks: seq<int>, timerRead: bool, expirations: nat)

  predicate HasTimeout(w: Wakeup) {
    w.timerRead && w.expirations >= 1
  }

  function Digested(s: Sender, w: Wakeup): Sender {
    var t := if w.timerRead then s.(running := false) else s;
    if w.acks != [] || HasTimeout(w) then
      var (u, p) := Acknowledged(t, w.acks);
      Merged(u, p, HasTimeout(w))
    else t
  }

  lemma MergedIsSound(s: Sender, c: Reno, p: Pending, hasTimeout: bool)
    requires Sound(s) && s.base <= p.base <= AckLimit(s)
    requires Healthy(c) && c.state != FastRecovRetrans && BaseIsLastAck(c, p.base)
    ensures var t := Merged(s.(cwnd := c), p, hasTimeout);
            Sound(t) && t.total == s.total && t.lastSent == s.lastSent && t.lastChunk == s.lastChunk && t.base == p.base
  {
    StepKeepsHealthy(c, Timeout(s.base));
  }

  lemma DigestedIsSound(s: Sender, w: Wakeup)
    requires Sound(s) && InRange(AckLimit(s), w.acks)
    ensures var t := Digested(s, w);
            && Sound(t) && t.total == s.total && t.lastSent == s.lastSent && t.lastChunk == s.lastChunk
            && t.base == Highest(s.base, w.acks)
  {
    HeardMovesBase(s.cwnd, s.base, AckLimit(s), w.acks);
    var t := if w.timerRead then s.(running := false) else s;
    var (c, b) := Heard(s.cwnd, s.base, w.acks);
    StepKeepsHealthy(c, Confirm);
    if w.acks != [] || HasTimeout(w) {
      MergedIsSound(t, Confirmed(c), Pending(b, c.state == FastRecovRetrans), HasTimeout(w));
    }
  }

  // ---------- What a wake-up comes to ----------

  /** The acknowledgements of a batch that are not below an earlier one or the base. */
  function Relevant(base: int, acks: seq<int>): seq<Event>
    decreases acks
  {
    if acks == [] then []
    else if acks[0] < base then Relevant(base, acks[1..])
    else [Ack(acks[0])] + Relevant(acks[0], acks[1..])
  }

  lemma {:induction false} HeardIsRelevant(c: Reno, base: int, acks: seq<int>)
    ensures Heard(c, base, acks).0 == After(c, Relevant(base, acks))
    decreases acks
  {
    if acks != [] {
      if acks[0] < base {
        HeardIsRelevant(c, base, acks[1..]);
      } else {
        HeardIsRelevant(Acked(c, acks[0]), acks[0], acks[1..]);
        RunJoins(c, [Ack(acks[0])], Relevant(acks[0], acks[1..]));
        assert After(c, [Ack(acks[0])]) == Step(After(c, []), Ack(acks[0]));
      }
    }
  }

  /** A third duplicate comes with the batch. */
  predicate Loses(s: Sender, w: Wakeup) {
    After(s.cwnd, Relevant(s.base, w.acks)).state == FastRecovRetrans
  }

  /** The timer has expired, nothing new is acknowledged and no third duplicate comes with it. */
  predicate TimesOut(s: Sender, w: Wakeup) {
    HasTimeout(w) && Highest(s.base, w.acks) == s.base && !Loses(s, w)
  }

  /** What the window machine gets to see of a wake-up. */
  function Events(s: Sender, w: Wakeup): seq<Event> {
    Relevant(s.base, w.acks) + [Confirm] + if TimesOut(s, w) then [Timeout(s.base)] else []
  }

  lemma EventsAre(s: Sender, w: Wakeup)
    ensures var c := Confirmed(After(s.cwnd, Relevant(s.base, w.acks)));
            After(s.cwnd, Events(s, w)) == if TimesOut(s, w) then TimedOut(c, s.base) else c
  {
    var seen := Relevant(s.base, w.acks);
    RunsOn(s.cwnd, seen, Confirm);
    RunsOn(s.cwnd, seen + [Confirm], Timeout(s.base));
    assert seen + [Confirm] + [] == seen + [Confirm];
  }

  /** A turn in full: the base is the highest acknowledgement; the window machine sees the relevant acknowledgements,
      the confirmation, and a timeout only if nothing new came with it; a loss is pending when it has just been noticed;
      and the timer runs on unless read, stops for a loss, and after an advance runs if something is outstanding. */
  lemma DigestedExactly(s: Sender, w: Wakeup)
    requires Sound(s) && InRange(AckLimit(s), w.acks)
    ensures var t, high := Digested(s, w), Highest(s.base, w.acks);
            var heard, lost := w.acks != [] || HasTimeout(w), Loses(s, w) || TimesOut(s, w);
            && t.base == high && t.total == s.total && t.lastSent == s.lastSent && t.lastChunk == s.lastChunk
            && t.cwnd == After(s.cwnd, Events(s, w))
            && (t.retrans <==> if heard then lost else s.retrans)
            && (t.running <==>
                  if lost then false
                  else if high > s.base then high <= s.lastSent < NONE
                  else s.running && !w.timerRead)
  {
    HeardMovesBase(s.cwnd, s.base, AckLimit(s), w.acks);
    HeardIsRelevant(s.cwnd, s.base, w.acks);
    EventsAre(s, w);
    DigestedIsSound(s, w);
  }

  // ---------- Sending ----------

  /** How many packets the window lets out. */
  function Burst(s: Sender): int {
    Max(0, Limit(s) - Next(s))
  }

  /** The state after n packets are out. */
  function AfterSending(s: Sender, n: int): Sender {
    if n == 0 then s else s.(lastSent := Next(s) + n - 1, retrans := false, running := true)
  }

  /** Sending starts at the base when a loss is pending, otherwise behind the last packet sent, but not below the base;
      it ends at the window's end; there is something to send exactly when the first is allowed. */
  lemma BurstFillsWindow(s: Sender)
    requires Sound(s)
    ensures s.base <= Next(s) <= s.total
    ensures Next(s) == if s.retrans || s.lastSent == NONE then s.base else Max(s.base, s.lastSent + 1)
    ensures Burst(s) == Max(0, Min(s.base + s.cwnd.window, s.total) - Next(s))
    ensures Burst(s) > 0 ==> Next(s) + Burst(s) == Limit(s) && Next(s) < s.total
    ensures Burst(s) > 0 <==> Allowed(s, Next(s))
  {
  }

  lemma SendingIsSound(s: Sender, n: int)
    requires Sound(s) && 0 <= n <= Burst(s)
    ensures Sound(AfterSending(s, n)) && Next(AfterSending(s, n)) == Next(s) + n
  {
    BurstFillsWindow(s);
  }

  /** The loop's own test lets out one more packet exactly while the burst lasts. */
  lemma SendStep(s: Sender, n: int)
    requires Sound(s) && 0 <= n <= Burst(s)
    ensures Allowed(AfterSending(s, n), Next(s) + n) <==> n < Burst(s)
    ensures n < Burst(s) ==> 0 <= Next(s) + n < s.total
    ensures n < Burst(s) ==>
              var a := AfterSending(s, n);
              AfterSending(s, n + 1)
              == a.(lastSent := Next(s) + n, retrans := a.retrans && Next(s) + n != a.base, running := true)
  {
    BurstFillsWindow(s);
  }

  /** The sender was started for this file. */
  ghost predicate Covers(total: int, lastChunk: int, file: File) {
    1 <= |file| < MODULUS && total == ChunkCount(|file|) && (total - 1) * MAX_PAYLOAD_LEN + lastChunk == |file|
  }

  /** The packets carry the chunks from number `first` on. */
  ghost predicate AreChunks(file: File, first: int, sent: seq<Packet>) {
    && 1 <= |file| && (sent != [] ==> 0 <= first && first + |sent| <= ChunkCount(|file|))
    && forall i :: 0 <= i < |sent| ==> sent[i] == Chunk(file, first + i)
  }

  /** With the window unbounded, a packet is sent at or beyond base + WINDOW exactly when the window is larger than that
      and the file has such a packet. */
  lemma OverrunsWhenWindowDoes(s: Sender)
    requires Sound(s) && Burst(s) > 0
    ensures Next(s) + Burst(s) > s.base + WINDOW <==> s.cwnd.window > WINDOW && s.total > s.base + WINDOW
  {
  }

  /** Something is still on its way to bring the sender back, or everything is acknowledged. */
  predicate Alive(s: Sender) {
    s.running || s.base >= s.total
  }

  /** One turn of the event loop with a writable socket: the wake-up is digested and the window is sent. */
  function Turned(s: Sender, w: Wakeup): Sender {
    var t := Digested(s, w);
    AfterSending(t, Burst(t))
  }

  /** The acknowledgements are possible ones, and the timer is read only once it has expired. */
  ghost predicate Genuine(s: Sender, w: Wakeup) {
    InRange(AckLimit(s), w.acks) && (w.timerRead ==> w.expirations >= 1)
  }

  /** Whatever a wake-up brings, the timer runs again once the window has been sent, unless all is acknowledged. */
  lemma TurnKeepsAlive(s: Sender, w: Wakeup)
    requires Sound(s) && Alive(s) && Genuine(s, w)
    ensures Sound(Turned(s, w)) && Alive(Turned(s, w))
  {
    DigestedIsSound(s, w);
    HeardMovesBase(s.cwnd, s.base, AckLimit(s), w.acks);
    SendingIsSound(Digested(s, w), Burst(Digested(s, w)));
  }

  /** The sender after its first burst, before it waits for the first time. */
  function Launched(totalBytes: int): Sender {
    AfterSending(Started(totalBytes), Burst(Started(totalBytes)))
  }

  /** The timer runs exactly while something is not acknowledged. */
  predicate Ticking(s: Sender) {
    s.running <==> s.base < s.total
  }

  lemma TurnKeepsTicking(s: Sender, w: Wakeup)
    requires Sound(s) && Ticking(s) && Genuine(s, w)
    ensures Sound(Turned(s, w)) && Ticking(Turned(s, w))
  {
    DigestedExactly(s, w);
    DigestedIsSound(s, w);
    HeardMovesBase(s.cwnd, s.base, AckLimit(s), w.acks);
    SendingIsSound(Digested(s, w), Burst(Digested(s, w)));
  }

  lemma LaunchTicks(totalBytes: int)
    requires 1 <= totalBytes <= MAX_PAYLOAD_LEN * (NONE - 1)
    ensures Sound(Launched(totalBytes)) && Ticking(Launched(totalBytes))
  {
    StartsSound(totalBytes);
    SendingIsSound(Started(totalBytes), Burst(Started(totalBytes)));
  }

  function AfterTurns(s: Sender, ws: seq<Wakeup>): Sender
    decreases ws
  {
    if ws == [] then s else AfterTurns(Turned(s, ws[0]), ws[1..])
  }

  ghost predicate AllGenuine(s: Sender, ws: seq<Wakeup>)
    decreases ws
  {
    ws == [] || (Genuine(s, ws[0]) && AllGenuine(Turned(s, ws[0]), ws[1..]))
  }

  lemma {:induction false} TurnsKeepTicking(s: Sender, ws: seq<Wakeup>, k: nat)
    requires Sound(s) && Ticking(s) && AllGenuine(s, ws) && k <= |ws|
    ensures Sound(AfterTurns(s, ws[..k])) && Ticking(AfterTurns(s, ws[..k]))
    decreases k
  {
    if k > 0 {
      TurnKeepsTicking(s, ws[0]);
      TurnsKeepTicking(Turned(s, ws[0]), ws[1..], k - 1);
      assert ws[..k][0] == ws[0] && ws[..k][1..] == ws[1..][..k - 1];
    }
  }

  /** From the first burst on, after every turn of any run of wake-ups, the timer runs exactly while something is not
      acknowledged. */
  lemma NoSilentStall(totalBytes: int, ws: seq<Wakeup>, k: nat)
    requires 1 <= totalBytes <= MAX_PAYLOAD_LEN * (NONE - 1) && AllGenuine(Launched(totalBytes), ws) && k <= |ws|
    ensures var s := AfterTurns(Launched(totalBytes), ws[..k]); Sound(s) && (s.running <==> s.base < s.total)
  {
    LaunchTicks(totalBytes);
    TurnsKeepTicking(Launched(totalBytes), ws, k);
  }

  /** What the window machine gets to see of a run of wake-ups. */
  function History(s: Sender, ws: seq<Wakeup>): seq<Event>
    decreases ws
  {
    if ws == [] then [] else Events(s, ws[0]) + History(Turned(s, ws[0]), ws[1..])
  }

  lemma {:induction false} WindowIsHistory(s: Sender, ws: seq<Wakeup>)
    requires Sound(s) && Ticking(s) && AllGenuine(s, ws)
    ensures AfterTurns(s, ws).cwnd == After(s.cwnd, History(s, ws))
    decreases ws
  {
    if ws != [] {
      DigestedExactly(s, ws[0]);
      TurnKeepsTicking(s, ws[0]);
      WindowIsHistory(Turned(s, ws[0]), ws[1..]);
      RunJoins(s.cwnd, Events(s, ws[0]), History(Turned(s, ws[0]), ws[1..]));
    }
  }

  /** In every run of wake-ups the window machine is where the acknowledgements heard, the confirmations and the
      timeouts that no news came with have brought it. */
  lemma WindowFollowsHistory(totalBytes: int, ws: seq<Wakeup>)
    requires 1 <= totalBytes <= MAX_PAYLOAD_LEN * (NONE - 1) && AllGenuine(Launched(totalBytes), ws)
    ensures var run := History(Launched(totalBytes), ws);
            var c := AfterTurns(Launched(totalBytes), ws).cwnd;
            c == After(Initial(), run) && Told(run, c)
  {
    LaunchTicks(totalBytes);
    WindowIsHistory(Launched(totalBytes), ws);
    HistoryTells(History(Launched(totalBytes), ws));
  }

  /** The third duplicate, or a timeout without progress, makes the packet at the base the next one sent; after such
      a timeout it is the only one. Otherwise nothing is sent twice: sending goes on behind the last packet sent, or
      at the base when that is further. */
  lemma LossIsResent(s: Sender, w: Wakeup)
    requires Sound(s) && InRange(AckLimit(s), w.acks) && Highest(s.base, w.acks) < s.total
    ensures var t, lost := Digested(s, w), Acknowledged(s, w.acks).1.threeDups;
            var late := HasTimeout(w) && t.base == s.base;
            && (lost || late ==> Next(t) == t.base && Burst(t) >= 1)
            && (late && !lost ==> Burst(t) == 1)
            && (!lost && !late && (w.acks != [] || !s.retrans) ==>
                  Next(t) == if s.lastSent < t.base then t.base else Succ32(s.lastSent))
  {
    DigestedIsSound(s, w);
    HeardMovesBase(s.cwnd, s.base, AckLimit(s), w.acks);
    BurstFillsWindow(Digested(s, w));
  }

  /** Without that premise an unfinished transfer falls silent exactly when the timer is read before it has expired,
      nothing new was acknowledged, no third duplicate came and the window is full. */
  lemma StallsExactlyWhen(s: Sender, w: Wakeup)
    requires Sound(s) && InRange(AckLimit(s), w.acks) && Alive(s)
    ensures var t := Digested(s, w);
            !Alive(Turned(s, w)) <==>
              && s.base < s.total && w.timerRead && w.expirations == 0
              && Highest(s.base, w.acks) == s.base && !Acknowledged(s, w.acks).1.threeDups && !Allowed(t, Next(t))
  {
    DigestedIsSound(s, w);
    HeardMovesBase(s.cwnd, s.base, AckLimit(s), w.acks);
    BurstFillsWindow(Digested(s, w));
  }

  // ---------- The record the event loop works on ----------

  class SenderStat {
    const cwnd: Cwnd
    var totalSeq: int
    var sendBase: int
    var lastSent: int
    var lastChunk: int
    var retrans: bool
    var timerRunning: bool

    ghost function Value(): Sender
      reads this, cwnd
    {
      Sender(cwnd.Value(), totalSeq, sendBase, lastSent, lastChunk, retrans, timerRunning)
    }

    /** What holds whenever the event loop waits. */
    ghost predicate Valid()
      reads this, cwnd
    {
      cwnd.Valid() && Sound(Value())
    }

    constructor (totalBytes: int)
      ensures fresh(cwnd) && cwnd.Valid() && Value() == Started(totalBytes)
    {
      cwnd := new Cwnd();
      sendBase, lastSent, retrans, timerRunning := 0, NONE, false, false;
      totalSeq := (1 + (totalBytes - 1) % 0x1_0000_0000_0000_0000 / MAX_PAYLOAD_LEN) % MODULUS;
      lastChunk := totalBytes % MAX_PAYLOAD_LEN;
      if totalBytes % MAX_PAYLOAD_LEN == 0 {
        lastChunk := MAX_PAYLOAD_LEN;
      }
    }

    function GetNextSeq(): (n: int)
      reads this, cwnd
      ensures n == Next(Value())
    {
      if retrans || lastSent < sendBase then sendBase else Succ32(lastSent)
    }

    function AllowSend(nextSeq: int): (ok: bool)
      reads this, cwnd
      ensures ok == Allowed(Value(), nextSeq)
    {
      (retrans || Minus32(nextSeq, sendBase) < cwnd.window) && nextSeq < totalSeq
    }

    method UpdateNextSeq(sent: int) returns (n: int)
      modifies `lastSent, `retrans
      ensures lastSent == sent && retrans == (old(retrans) && sent != sendBase) && n == GetNextSeq()
    {
      lastSent := sent;
      if lastSent == sendBase {
        retrans := false;
      }
      n := GetNextSeq();
    }

    /** Lets the window machine hear the acknowledgements; the base itself waits for Merge. */
    method AckAll(acks: seq<int>) returns (p: Pending)
      requires cwnd.Valid()
      modifies cwnd
      ensures cwnd.Valid() && (Value(), p) == Acknowledged(old(Value()), acks)
      ensures cwnd.state != FastRecovRetrans
    {
      var base := sendBase;
      var i := 0;
      while i < |acks|
        invariant 0 <= i <= |acks| && cwnd.Valid()
        invariant Heard(cwnd.Value(), base, acks[i..]) == Heard(old(cwnd.Value()), sendBase, acks)
      {
        var ack := acks[i];
        assert acks[i..][1..] == acks[i + 1..];
        if ack >= base {
          base := ack;
          cwnd.AckCwnd(ack);
        }
        i := i + 1;
      }
      var threeDups := cwnd.ConfirmThreeDups();
      p := Pending(base, threeDups);
    }

    method Merge(p: Pending, hasTimeout: bool)
      requires cwnd.Valid()
      modifies `sendBase, `retrans, `timerRunning, cwnd
      ensures cwnd.Valid() && Value() == Merged(old(Value()), p, hasTimeout)
    {
      retrans := p.threeDups;
      if sendBase < p.base {
        sendBase := p.base;
        if !retrans {
          if sendBase < GetNextSeq() {
            timerRunning := true;
          } else {
            timerRunning := false;
          }
        }
      } else if !retrans {
        retrans := hasTimeout;
        if retrans {
          cwnd.TimeoutCwnd(sendBase);
        }
      }
      if retrans {
        timerRunning := false;
      }
    }

    /** The offset is computed in 32 bits: past that, the packet carries bytes from elsewhere in the file. */
    method PreparePacket(file: File, seqNum: int, len: int, last: bool) returns (pkt: Packet)
      requires 0 <= seqNum && 0 <= len && MAX_PAYLOAD_LEN * seqNum + len <= |file|
      ensures pkt.seqNum == seqNum && pkt.ackNum == 0 && pkt.fin == last && |pkt.data| == len
      ensures var offset := MAX_PAYLOAD_LEN * seqNum % MODULUS;
              && pkt.data == file[offset..offset + len]
              && (offset == MAX_PAYLOAD_LEN * seqNum <==> MAX_PAYLOAD_LEN * seqNum < MODULUS)
    {
      var offset := MAX_PAYLOAD_LEN * seqNum % MODULUS;
      pkt := Packet(seqNum, 0, last, file[offset..offset + len]);
    }

    /** The packet for chunk seqNum. */
    method PrepareChunk(file: File, seqNum: int) returns (pkt: Packet)
      requires Covers(totalSeq, lastChunk, file) && 0 <= seqNum < totalSeq
      ensures pkt == Chunk(file, seqNum)
    {
      var len := if seqNum + 1 == totalSeq then lastChunk else MAX_PAYLOAD_LEN;
      pkt := PreparePacket(file, seqNum, len, seqNum + 1 == totalSeq);
    }

    /** One packet that the socket takes; `more` is the loop's test for the following one. */
    method SendOne(file: File, next: int, ghost before: Sender, ghost n: int)
      returns (pkt: Packet, following: int, more: bool)
      requires cwnd.Valid() && Covers(totalSeq, lastChunk, file)
      requires Sound(before) && 0 <= n < Burst(before) && Value() == AfterSending(before, n) && next == Next(before) + n
      modifies `lastSent, `retrans, `timerRunning
      ensures cwnd.Valid() && Value() == AfterSending(before, n + 1)
      ensures pkt == Chunk(file, next) && following == next + 1 && (more <==> n + 1 < Burst(before))
    {
      SendStep(before, n);
      SendStep(before, n + 1);
      SendingIsSound(before, n + 1);
      pkt := PrepareChunk(file, next);
      if !timerRunning {
        timerRunning := true;
      }
      following := UpdateNextSeq(next);
      more := AllowSend(following);
    }

    /** The loop: one packet after the other while the window lets them out and the socket takes them. */
    method SendWhileAllowed(file: File, first: int, room: nat, ghost before: Sender)
      returns (sent: seq<Packet>, writable: bool)
      requires cwnd.Valid() && Covers(totalSeq, lastChunk, file)
      requires before == Value() && Sound(before) && first == Next(before) && Burst(before) > 0
      modifies `lastSent, `retrans, `timerRunning
      ensures cwnd.Valid() && |sent| == Min(room, Burst(before)) && AreChunks(file, first, sent)
      ensures Value() == AfterSending(before, |sent|) && writable == (Burst(before) <= room)
    {
      sent, writable := [], true;
      var next, more := first, true;
      while more
        invariant |sent| <= Min(room, Burst(before)) && (more <==> |sent| < Burst(before)) && next == first + |sent|
        invariant cwnd.Valid() && Value() == AfterSending(before, |sent|) && AreChunks(file, first, sent)
        decreases Burst(before) - |sent|
      {
        if |sent| == room {
          writable := false;
          break;
        }
        var pkt;
        pkt, next, more := SendOne(file, next, before, |sent|);
        sent := sent + [pkt];
      }
    }

    /** Sends from the next number to the window's end, or until the socket has taken `room` packets. */
    method SendPkts(file: File, sockWritable: bool, room: nat) returns (sent: seq<Packet>, writable: bool)
      requires Valid() && Covers(totalSeq, lastChunk, file)
      modifies `lastSent, `retrans, `timerRunning
      ensures Valid() && |sent| == (if sockWritable then Min(room, Burst(old(Value()))) else 0)
      ensures Value() == AfterSending(old(Value()), |sent|) && AreChunks(file, Next(old(Value())), sent)
      ensures writable == (sockWritable && Burst(old(Value())) <= room)
    {
      BurstFillsWindow(Value());
      sent, writable := [], sockWritable;
      if writable && AllowSend(GetNextSeq()) {
        ghost var before := Value();
        sent, writable := SendWhileAllowed(file, GetNextSeq(), room, before);
        SendingIsSound(before, |sent|);
      }
    }

    /** The first half of a turn of the event loop. */
    method Digest(w: Wakeup)
      requires Valid() && InRange(AckLimit(Value()), w.acks)
      modifies this, cwnd
      ensures Valid() && Value() == Digested(old(Value()), w)
    {
      DigestedIsSound(Value(), w);
      var hasTimeout := false;
      if w.timerRead {
        timerRunning := false;
        if w.expirations >= 1 { hasTimeout := true; }
      }
      if |w.acks| != 0 || hasTimeout {
        var p := AckAll(w.acks);
        Merge(p, hasTimeout);
      }
    }

    /** One turn of the event loop: the wake-up is digested, then the window is sent. */
    method Turn(file: File, w: Wakeup, sockWritable: bool, room: nat) returns (sent: seq<Packet>, writable: bool)
      requires Valid() && InRange(AckLimit(Value()), w.acks) && Covers(totalSeq, lastChunk, file)
      modifies this, cwnd
      ensures Valid() && Value() == AfterSending(Digested(old(Value()), w), |sent|)
      ensures |sent| == if sockWritable then Min(room, Burst(Digested(old(Value()), w))) else 0
      ensures AreChunks(file, Next(Digested(old(Value()), w)), sent)
    {
      DigestedIsSound(Value(), w);
      Digest(w);
      sent, writable := SendPkts(file, sockWritable, room);
    }
  }
}
