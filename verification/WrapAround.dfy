/** What sequence numbers of eight bits cost. The two end-to-end properties hold for sessions
    up to an exact number of chunks; for each, a run just past it breaks the property. */
module WrapAround {
  import opened Basics
  import opened Codec
  import opened Receiver
  import opened Transfer
  import Sender

  // ----- a run in lockstep: send, deliver, acknowledge -----

  const A: byte := 0x61

  function Repeat(n: nat): seq<byte> { seq(n, i => A) }

  function Chunks(k: nat): seq<seq<byte>> { seq(k, i => [A]) }

  function NoSlots(): Slots { seq(WINDOW_SIZE, i => None) }

  function ChunkNo(k: uint8, window: uint5): Packet { Packet(PTYPE_DATA, false, window, k, 1, 0, Some([A])) }

  function AckNo(k: uint8): Packet { Packet(PTYPE_ACK, false, 31, k, 0, 0, None) }

  /** After k rounds with an input of n bytes, everything sent is acknowledged. */
  function Lock(k: uint8, n: nat): Session {
    Session(Repeat(n), Chunks(k), Sender.SenderState(k, k, 0, WINDOW_SIZE, NoSlots()),
            ReceiverState(k, WINDOW_SIZE, NoSlots(), Repeat(k)),
            set j: uint8 | j < k :: ChunkNo(j, 30), set j: uint8 | 1 <= j <= k :: AckNo(j), k, false)
  }

  const READ_CHUNK := SenderStep(Sender.Input(0, None, Some([A]), 0))

  function Deliver(k: uint8): Step { ReceiverStep(Decoded(ChunkNo(k, 30))) }

  function Acknowledge(k: uint8): Step {
    SenderStep(Sender.Input(0, Some(Decoded(AsDecoded(AckNo(k)))), None, 0))
  }

  lemma {:induction false} ConcatChunks(k: nat)
    ensures Concat(Chunks(k)) == Repeat(k)
  {
    if k > 0 {
      ConcatChunks(k - 1);
      assert Chunks(k)[..k - 1] == Chunks(k - 1);
    }
  }

  lemma {:induction false} NothingDue(slots: seq<Option<Packet>>, now: bv32, seqnum: uint8)
    requires now == 0
    ensures Sender.Select(slots, Sender.Due(now, seqnum)) == []
  {
    if slots != [] {
      NothingDue(slots[..|slots| - 1], now, seqnum);
    }
  }

  lemma {:induction false} DrainNothing(r: ReceiverState, i: nat)
    requires r.slots == NoSlots()
    ensures DrainFrom(r, i) == r
    decreases WINDOW_SIZE - i
  {
    if i < WINDOW_SIZE {
      DrainNothing(r, i + 1);
    }
  }

  /** After a chunk was read with all slots free. */
  function AfterRead(k: uint8, n: nat): Session {
    Lock(k, n).(chunks := Chunks(k + 1),
                snd := Sender.SenderState(IncSeqnum(k), k, 0, 30, NoSlots()[0 := Some(ChunkNo(k, 30))]),
                data := Lock(k, n).data + {ChunkNo(k, 30)})
  }

  lemma ReadStep(k: uint8, n: nat)
    requires k < n
    ensures Enabled(Lock(k, n), READ_CHUNK) && Apply(Lock(k, n), READ_CHUNK) == AfterRead(k, n)
  {
    var s := Lock(k, n);
    ConcatChunks(k);
    assert Repeat(k) + [A] == Repeat(n)[..k + 1];
    assert Chunks(k) + [[A]] == Chunks(k + 1);
    assert Sender.Sent(s.snd, READ_CHUNK.i) == [ChunkNo(k, 30)];
  }

  function AfterDelivery(k: uint8, n: nat): Session {
    AfterRead(k, n).(rcv := ReceiverState(IncSeqnum(k), WINDOW_SIZE, NoSlots(), Repeat(k + 1)),
                     acks := Lock(k, n).acks + {AckNo(IncSeqnum(k))})
  }

  lemma DeliverStep(k: uint8, n: nat)
    ensures Enabled(AfterRead(k, n), Deliver(k)) && Apply(AfterRead(k, n), Deliver(k)) == AfterDelivery(k, n)
  {
    var r := AfterRead(k, n).rcv;
    DrainNothing(r.(seqnum := IncSeqnum(k), output := r.output + [A]), 0);
    assert Repeat(k) + [A] == Repeat(k + 1);
    assert Payload(ChunkNo(k, 30)) == [A];
  }

  lemma AcknowledgeStep(k: uint8, n: nat)
    requires k < 255
    ensures Enabled(AfterDelivery(k, n), Acknowledge(k + 1))
    ensures Apply(AfterDelivery(k, n), Acknowledge(k + 1)) == Lock(k + 1, n)
  {
    var s := AfterDelivery(k, n);
    var i := Acknowledge(k + 1).i;
    NothingDue(s.snd.slots, i.now, s.snd.seqnum);
    assert Sender.Sent(s.snd, i) == [];
    assert Sender.Freed(s.snd.slots, k + 1, s.snd.seqnum) == NoSlots();
    OccupiedUpdate(NoSlots(), 0, Some(ChunkNo(k, 30)));
    assert s.acks == Lock(k + 1, n).acks;
    assert s.data == Lock(k + 1, n).data;
  }

  lemma {:induction false} LockReachable(k: uint8, n: nat)
    requires k <= n
    ensures Reachable(Lock(k, n))
  {
    if k == 0 {
      assert Init(Lock(0, n));
      StartReachable(Lock(0, n));
    } else {
      LockReachable(k - 1, n);
      ReadStep(k - 1, n);
      StepReachable(Lock(k - 1, n), READ_CHUNK);
      DeliverStep(k - 1, n);
      StepReachable(AfterRead(k - 1, n), Deliver(k - 1));
      AcknowledgeStep(k - 1, n);
      StepReachable(AfterDelivery(k - 1, n), Acknowledge(k));
    }
  }

  // ----- a prefix of the input: up to 255 chunks -----

  /** With 256 chunks the receiver expects number 0 again, and a late copy of the first
      datagram is written a second time: the output is longer than the input. */
  lemma OldDatagramWritten() returns (s: Session)
    ensures Reachable(s) && |s.chunks| == 256 && !(s.rcv.output <= s.input)
  {
    LockReachable(255, 256);
    ReadStep(255, 256);
    StepReachable(Lock(255, 256), READ_CHUNK);
    DeliverStep(255, 256);
    StepReachable(AfterRead(255, 256), Deliver(255));
    var t := AfterDelivery(255, 256);
    assert ChunkNo(0, 30) in t.data;
    StepReachable(t, Deliver(0));
    s := Apply(t, Deliver(0));
    DrainNothing(t.rcv.(seqnum := 1, output := t.rcv.output + [A]), 0);
    assert Payload(ChunkNo(0, 30)) == [A];
  }

  ghost predicate AlwaysPrefix(limit: nat) {
    forall s :: Reachable(s) && |s.chunks| <= limit ==> s.rcv.output <= s.input
  }

  /** The receiver's output is always a prefix of the input exactly for sessions of at most
      255 chunks. */
  lemma PrefixIff(limit: nat)
    ensures AlwaysPrefix(limit) <==> limit <= 255
  {
    if limit <= 255 {
      forall s | Reachable(s) && |s.chunks| <= limit ensures s.rcv.output <= s.input {
        OutputIsPrefix(s);
      }
    } else {
      var s := OldDatagramWritten();
    }
  }

  // ----- complete at the end of the input: up to 495 chunks -----

  /** From number 255 on: its packet is never freed, because no acknowledgement is higher.
      `lost` counts the chunks read while no slot was free; the first of them needs 31
      occupied slots, at most 16 of which date from before the numbers started over. */
  ghost predicate Overflowed(s: Sender.SenderState, read: nat, lost: nat) {
    && lost + 256 <= read
    && HeldIn(s.slots, 255)
    && (s.free + Occupied(s.slots) + lost) % 256 == WINDOW_SIZE
    && Occupied(s.slots) <= read - lost - 240
    && (lost > 0 ==> read - lost >= 271)
  }

  ghost predicate Tracked(s: Session) {
    if |s.chunks| <= 255 then Good(s)
    else (exists lost :: Overflowed(s.snd, |s.chunks|, lost)) && (s.finished ==> |s.chunks| >= 496)
  }

  lemma {:induction false} FewerOccupied(a: seq<Option<Packet>>, b: seq<Option<Packet>>)
    requires |a| == |b| && forall i :: 0 <= i < |a| ==> a[i] == None || a[i] == b[i]
    ensures Occupied(a) <= Occupied(b)
  {
    if a != [] {
      FewerOccupied(a[..|a| - 1], b[..|b| - 1]);
    }
  }

  lemma HeldOccupied(slots: Slots, n: int)
    requires HeldIn(slots, n)
    ensures 1 <= Occupied(slots) <= WINDOW_SIZE
  {
    var i :| 0 <= i < |slots| && Holds(slots[i], n);
    OccupiedUpdate(slots, i, None);
    AllOccupied(slots);
  }

  /** Freeing never touches number 255 and never occupies a slot. */
  lemma FreedKeeps255(slots: Slots, n: uint8, seqnum: uint8)
    requires HeldIn(slots, 255)
    ensures var freed := Sender.Freed(slots, n, seqnum); HeldIn(freed, 255) && Occupied(freed) <= Occupied(slots)
  {
    var freed := Sender.Freed(slots, n, seqnum);
    var k :| 0 <= k < |slots| && Holds(slots[k], 255);
    assert Holds(freed[k], 255);
    FewerOccupied(freed, slots);
  }

  /** An acknowledgement frees and counts the same slots. */
  lemma OverflowedAck(s: Sender.SenderState, i: Sender.Input, read: nat, lost: nat)
    requires Overflowed(s, read, lost)
    ensures Overflowed(Sender.AckTurn(s, i), read, lost)
  {
    if i.ack.Some? && i.ack.value.Decoded? && i.ack.value.p.typ == PTYPE_ACK {
      var n := i.ack.value.p.seqnum;
      FreedKeeps255(s.slots, n, s.seqnum);
      ShiftCount(s.free, Occupied(s.slots), Occupied(Sender.Freed(s.slots, n, s.seqnum)), lost);
    }
  }

  lemma ShiftCount(free: uint8, before: nat, after: nat, lost: nat)
    requires (free + before + lost) % 256 == WINDOW_SIZE
    ensures ((free + (before - after)) % 256 + after + lost) % 256 == WINDOW_SIZE
  {}

  lemma DecrementedCount(free: uint8, total: nat)
    requires (free + total) % 256 == WINDOW_SIZE
    ensures (Sender.Decremented(free) + total + 1) % 256 == WINDOW_SIZE
  {
    assert Sender.Decremented(free) == if free == 0 then 255 else free - 1;
  }

  lemma OverflowedSend(s: Sender.SenderState, chunk: Sender.Chunk, now: bv32, read: nat, lost: nat) returns (more: nat)
    requires Overflowed(s, read, lost)
    ensures Overflowed(Sender.Send(s, chunk, now), read + 1, more)
  {
    var h := FirstHole(s.slots);
    var k :| 0 <= k < |s.slots| && Holds(s.slots[k], 255);
    var t := Sender.Send(s, chunk, now);
    assert Holds(t.slots[k], 255);
    DecrementedCount(s.free, Occupied(s.slots) + lost);
    if h < WINDOW_SIZE {
      OccupiedUpdate(s.slots, h, Some(Sender.ChunkPacket(s, chunk, now)));
      more := lost;
    } else {
      NoHole(s.slots);
      more := lost + 1;
    }
  }

  /** With number 255 still held, the count reads 31 only after 225 losses. */
  lemma OverflowedEnd(s: Sender.SenderState, read: nat, lost: nat)
    requires Overflowed(s, read, lost) && s.free == WINDOW_SIZE
    ensures read >= 496
  {
    HeldOccupied(s.slots, 255);
  }

  lemma OverflowedTurn(s: Session, i: Sender.Input)
    requires |s.chunks| > 255 && Tracked(s) && !s.finished
    ensures Tracked(SenderTurn(s, i))
  {
    var n, mid := |s.chunks|, Sender.AckTurn(s.snd, i);
    var lost :| Overflowed(s.snd, n, lost);
    OverflowedAck(s.snd, i, n, lost);
    if Sender.SendsChunk(s.snd, i) {
      var more := OverflowedSend(mid, i.read.value, i.sendTime, n, lost);
    } else if Sender.Ends(s.snd, i) {
      OverflowedEnd(mid, n, lost);
    }
  }

  /** The 256th chunk takes number 255 and finds a slot. */
  lemma OverflowBegins(s: Sender.SenderState, chunk: Sender.Chunk, now: bv32)
    requires s.seqnum == 255 && FirstHole(s.slots) < WINDOW_SIZE
    requires Occupied(s.slots) <= 15 && s.free + Occupied(s.slots) == WINDOW_SIZE
    ensures Overflowed(Sender.Send(s, chunk, now), 256, 0)
  {
    var h := FirstHole(s.slots);
    OccupiedUpdate(s.slots, h, Some(Sender.ChunkPacket(s, chunk, now)));
    Wrapped(s.free + 255);
    assert Holds(Sender.Send(s, chunk, now).slots[h], 255);
  }

  lemma FirstOverflow(s: Session, i: Sender.Input)
    requires Good(s) && InputAvailable(s, i) && |s.chunks| == 255 && Sender.SendsChunk(s.snd, i)
    ensures Overflowed(Sender.Turn(s.snd, i), 256, 0)
  {
    var mid, acked := Sender.AckTurn(s.snd, i), HighestAck(s.acked, i.ack);
    AckTurnGood(s, i);
    SendTestLeavesRoom(s.chunks, mid, acked);
    IntervalOccupied(mid.slots, acked, 255);
    OverflowBegins(mid, i.read.value, i.sendTime);
  }

  lemma TrackedStep(s: Session, l: Step)
    requires Tracked(s) && Enabled(s, l)
    ensures Tracked(Apply(s, l))
  {
    match l
    case ReceiverStep(a) =>
      if |s.chunks| <= 255 {
        ReceiverTurnGood(s, a);
      }
    case SenderStep(i) =>
      if |s.chunks| > 255 {
        OverflowedTurn(s, i);
      } else if |SenderTurn(s, i).chunks| <= 255 {
        SenderTurnGood(s, i);
      } else {
        FirstOverflow(s, i);
      }
  }

  lemma {:induction false} AlwaysTracked(run: seq<Session>)
    requires Run(run)
    ensures Tracked(run[|run| - 1])
  {
    if |run| == 1 {
      InitGood(run[0]);
    } else {
      var init := run[..|run| - 1];
      var s, t := run[|run| - 2], run[|run| - 1];
      forall i | 0 <= i < |init| - 1 ensures Next(init[i], init[i + 1]) {
        assert Next(run[i], run[i + 1]);
      }
      assert Next(s, t);
      var l :| Enabled(s, l) && t == Apply(s, l);
      AlwaysTracked(init);
      TrackedStep(s, l);
    }
  }

  /** Past 255 chunks the sender does not end before it has read 496. */
  lemma NoEndUntil496(s: Session)
    requires Reachable(s) && s.finished
    ensures |s.chunks| <= 255 || |s.chunks| >= 496
  {
    var run :| Run(run) && run[|run| - 1] == s;
    AlwaysTracked(run);
  }

  /** What a sender filling up and then losing chunks looks like: j of the 31 slots taken. */
  ghost predicate Filling(s: Session, read: nat, j: nat) {
    && Reachable(s) && !s.finished
    && s.input == Repeat(496) && s.chunks == Chunks(read) && s.rcv.output == Repeat(240)
    && s.snd.lastack == 240 && s.snd.count == 0 && j <= WINDOW_SIZE
    && (forall i :: 0 <= i < j ==> s.snd.slots[i].Some?)
    && (forall i :: j <= i < WINDOW_SIZE ==> s.snd.slots[i] == None)
  }

  lemma HoleAt(slots: seq<Option<Packet>>, j: nat)
    requires j <= |slots|
    requires forall i :: 0 <= i < j ==> slots[i].Some?
    requires j < |slots| ==> slots[j] == None
    ensures FirstHole(slots) == j
  {}

  lemma FillStep(s: Session, read: nat, j: nat) returns (t: Session)
    requires Filling(s, read, j) && read < 496 && Sender.CanSend(s.snd)
    ensures Filling(t, read + 1, if j < WINDOW_SIZE then j + 1 else j)
    ensures t.snd.seqnum == (if j < WINDOW_SIZE then IncSeqnum(s.snd.seqnum) else s.snd.seqnum)
    ensures t.snd.free == Sender.Decremented(s.snd.free)
  {
    FillApply(s, read, j);
    t := Apply(s, READ_CHUNK);
  }

  lemma FillApply(s: Session, read: nat, j: nat)
    requires Filling(s, read, j) && read < 496 && Sender.CanSend(s.snd)
    ensures var t := Apply(s, READ_CHUNK);
            && Filling(t, read + 1, if j < WINDOW_SIZE then j + 1 else j)
            && t.snd.seqnum == (if j < WINDOW_SIZE then IncSeqnum(s.snd.seqnum) else s.snd.seqnum)
            && t.snd.free == Sender.Decremented(s.snd.free)
  {
    ConcatChunks(read);
    assert Repeat(read) + [A] == Repeat(496)[..read + 1];
    assert Chunks(read) + [[A]] == Chunks(read + 1);
    HoleAt(s.snd.slots, j);
    StepReachable(s, READ_CHUNK);
  }

  ghost predicate Filled(s: Session, j: nat) {
    Filling(s, 240 + j, j) && s.snd.seqnum == (240 + j) % 256 && s.snd.free == WINDOW_SIZE - j
  }

  lemma Wrapped(n: nat)
    requires n < 512
    ensures n % 256 == if n < 256 then n else n - 256
  {}

  lemma FillNumbers(j: nat)
    requires j < WINDOW_SIZE
    ensures (240 + j) % 256 < 240 + (WINDOW_SIZE - j)
    ensures IncSeqnum((240 + j) % 256) == (240 + (j + 1)) % 256
    ensures Sender.Decremented(WINDOW_SIZE - j) == WINDOW_SIZE - (j + 1)
  {
    Wrapped(240 + j);
    Wrapped((240 + j) % 256 + 1);
    Wrapped(240 + (j + 1));
    Wrapped(WINDOW_SIZE - j + 255);
  }

  lemma FillOne(s: Session, j: nat) returns (t: Session)
    requires Filled(s, j) && j < WINDOW_SIZE
    ensures Filled(t, j + 1)
  {
    FillNumbers(j);
    t := FillStep(s, 240 + j, j);
  }

  /** Sixteen chunks up to number 255, then fifteen more, because the numbers started over. */
  lemma {:induction false} Fill(j: nat) returns (s: Session)
    requires j <= WINDOW_SIZE
    ensures Filled(s, j)
  {
    if j == 0 {
      LockReachable(240, 496);
      s := Lock(240, 496);
    } else {
      var r := Fill(j - 1);
      s := FillOne(r, j - 1);
    }
  }

  ghost predicate Losing(s: Session, m: nat) {
    Filling(s, 271 + m, WINDOW_SIZE) && s.snd.seqnum == 15 && s.snd.free == (256 - m) % 256
  }

  lemma LoseOne(s: Session, m: nat) returns (t: Session)
    requires Losing(s, m) && m < 225
    ensures Losing(t, m + 1)
  {
    t := FillStep(s, 271 + m, WINDOW_SIZE);
  }

  /** With all slots taken, chunks are read, sent once and not kept; the count of free slots
      runs below 0 and comes around. */
  lemma {:induction false} Lose(m: nat) returns (s: Session)
    requires m <= 225
    ensures Losing(s, m)
  {
    if m == 0 {
      s := Fill(WINDOW_SIZE);
    } else {
      var r := Lose(m - 1);
      s := LoseOne(r, m - 1);
    }
  }

  /** With 496 chunks the sender can end although the receiver has written 240. */
  lemma EndsIncomplete() returns (s: Session)
    ensures Reachable(s) && s.finished && |s.chunks| == 496 && s.rcv.output != s.input
  {
    var r := Lose(225);
    var l := SenderStep(Sender.Input(0, None, Some([]), 0));
    ConcatChunks(496);
    StepReachable(r, l);
    s := Apply(r, l);
    assert |Repeat(240)| != |Repeat(496)|;
  }

  ghost predicate EndsComplete(limit: nat) {
    forall s :: Reachable(s) && s.finished && |s.chunks| <= limit ==> s.rcv.output == s.input
  }

  /** The end of the sender's loop means that the whole input was written exactly for
      sessions of at most 495 chunks. */
  lemma CompleteIff(limit: nat)
    ensures EndsComplete(limit) <==> limit <= 495
  {
    if limit <= 495 {
      forall s | Reachable(s) && s.finished && |s.chunks| <= limit ensures s.rcv.output == s.input {
        NoEndUntil496(s);
        EndMeansDelivered(s);
      }
    } else {
      var s := EndsIncomplete();
    }
  }
}
