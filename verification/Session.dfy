/** The two programs' own records, run against the network: whatever the network does, they take exactly the steps
    of the protocol. */
module Session {
  import opened Packets
  import opened Sender
  import opened Receiver
  import opened Transfer

  lemma SentAreChunks(f: File, first: int, sent: seq<Packet>)
    requires AreChunks(f, first, sent) && sent != []
    ensures (set p | p in sent) == Chunks(f, first, |sent|)
  {
    forall p | p in sent ensures p in Chunks(f, first, |sent|) {
      var i :| 0 <= i < |sent| && sent[i] == p;
      assert p == Chunk(f, first + i);
    }
    forall p | p in Chunks(f, first, |sent|) ensures p in sent {
      var i :| first <= i < first + |sent| && p == Chunk(f, i);
      assert sent[i - first] == p;
    }
  }

  class Session {
    const file: File
    const sender: SenderStat
    const receiver: ReceiverQ
    ghost var data: set<Packet>
    ghost var acks: set<AckPacket>

    ghost function Value(): Net
      reads this, sender, sender.cwnd, receiver, receiver.buffer, receiver.buflen
    {
      Net(sender.Value(), receiver.Value(), data, acks)
    }

    ghost predicate Valid()
      reads this, sender, sender.cwnd, receiver, receiver.buffer, receiver.buflen
    {
      Sane(file, Value()) && sender.Valid() && receiver.Valid()
    }

    constructor (f: File)
      requires 1 <= |f| < MODULUS
      ensures Valid() && file == f && Value() == Start(f)
      ensures fresh(sender) && fresh(sender.cwnd) && fresh(receiver) && fresh(receiver.buffer) && fresh(receiver.buflen)
    {
      file := f;
      sender := new SenderStat(|f|);
      receiver := new ReceiverQ();
      data, acks := {}, {};
      new;
      StartIsSane(f);
    }

    method SenderTurn(w: Wakeup, n: nat)
      requires Valid() && MaySend(file, Value(), w, n)
      modifies this, sender, sender.cwnd
      ensures Valid() && Value() == Stepped(file, old(Value()), Turn(w, n))
    {
      TurnIsSane(file, Value(), w, n);
      AcksAreInRange(file, Value(), w, n);
      var sent, _ := sender.Turn(file, w, true, n);
      if sent != [] {
        SentAreChunks(file, Next(Digested(old(sender.Value()), w)), sent);
      }
      ghost var out := set p | p in sent;
      assert sent == [] ==> out == {};
      data := data + out;
      assert data == Stepped(file, old(Value()), Turn(w, n)).data;
    }

    method Delivery(p: Packet)
      requires Valid() && Enabled(file, Value(), Deliver(p))
      modifies this, receiver, receiver.buffer, receiver.buflen
      ensures Valid() && Value() == Stepped(file, old(Value()), Deliver(p))
    {
      DeliveryIsSane(file, Value(), p);
      var back := receiver.Receive(p);
      acks := acks + set k | k in back;
    }

    method Garbled(fin: bool)
      requires Valid() && !receiver.recvFin
      modifies this
      ensures Valid() && Value() == Stepped(file, old(Value()), Garble(fin))
    {
      StepIsSane(file, Value(), Garble(fin));
      var back := receiver.Reject(fin);
      ghost var heard := set k | k in back;
      assert back != [] ==> heard == {back[0]};
      acks := acks + heard;
      assert acks == Stepped(file, old(Value()), Garble(fin)).acks;
    }

    /** Any run of the protocol, taken by the programs' records, whether it overruns the ring or not. */
    method Play(run: seq<Step>)
      requires Valid() && Possible(file, Value(), run)
      modifies this, sender, sender.cwnd, receiver, receiver.buffer, receiver.buflen
      ensures Valid() && Value() == End(file, old(Value()), run)
    {
      var i := 0;
      while i < |run|
        invariant 0 <= i <= |run| && Valid() && Possible(file, Value(), run[i..])
        invariant End(file, Value(), run[i..]) == End(file, old(Value()), run)
      {
        assert run[i..][0] == run[i] && run[i..][1..] == run[i + 1..];
        StepIsSane(file, Value(), run[i]);
        match run[i] {
          case Turn(w, n) => SenderTurn(w, n);
          case Deliver(p) => Delivery(p);
          case Garble(fin) => Garbled(fin);
          case Lose(lostData, lostAcks) => data, acks := data - lostData, acks - lostAcks;
          case Close => data := data + {CLOSING};
        }
        i := i + 1;
      }
    }
  }
}
