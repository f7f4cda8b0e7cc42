/** A whole transfer: the sender, the receiver and a channel that may drop, delay, reorder,
    repeat and damage datagrams. Every datagram ever sent stays available to the channel,
    which may hand it over any number of times, at any time, or never. */
module Transfer {
  import opened Basics
  import opened Codec
  import opened Receiver
  import Sender

  /** `chunks` is what the sender has read so far, one entry for each non-empty read, and
      `acked` the highest acknowledgement it has processed. */
  datatype Session = Session(
    input: seq<byte>,
    chunks: seq<seq<byte>>,
    snd: Sender.SenderState,
    rcv: ReceiverState,
    data: set<Packet>,
    acks: set<Packet>,
    acked: nat,
    finished: bool)

  predicate Init(s: Session) {
    s == Session(s.input, [], Sender.Start(), Receiver.Start(), {}, {}, 0, false)
  }

  /** An acknowledgement as the sender decodes it: the padding reads as an empty payload. */
  function AsDecoded(ack: Packet): Packet { ack.(payload := Some([])) }

  /** What the channel may hand to the receiver and to the sender. Damaged datagrams are
      rejected by the decoder, at any time. */
  ghost predicate DataAvailable(s: Session, a: Arrival) {
    a.Decoded? ==> a.p in s.data
  }

  ghost predicate AckAvailable(s: Session, a: Arrival) {
    a.Decoded? ==> exists ack :: ack in s.acks && a.p == AsDecoded(ack)
  }

  /** What reading the input may return: some of the bytes not read yet, or nothing
      exactly at its end. */
  predicate ReadPossible(s: Session, chunk: seq<byte>) {
    && Concat(s.chunks) + chunk <= s.input
    && (chunk == [] ==> Concat(s.chunks) == s.input)
  }

  ghost predicate InputAvailable(s: Session, i: Sender.Input) {
    && (i.ack.Some? ==> AckAvailable(s, i.ack.value))
    && (i.read.Some? ==> ReadPossible(s, i.read.value))
  }

  function HighestAck(acked: nat, a: Option<Arrival>): nat {
    if a.Some? && a.value.Decoded? && a.value.p.typ == PTYPE_ACK && a.value.p.seqnum > acked
    then a.value.p.seqnum else acked
  }

  /** One turn of the sender's loop. */
  function SenderTurn(s: Session, i: Sender.Input): Session {
    s.(snd := Sender.Turn(s.snd, i),
       chunks := if Sender.SendsChunk(s.snd, i) then s.chunks + [i.read.value] else s.chunks,
       data := s.data + (set p | p in Sender.Sent(s.snd, i)),
       acked := HighestAck(s.acked, i.ack),
       finished := Sender.Ends(s.snd, i))
  }

  /** One datagram processed by the receiver. */
  function ReceiverTurn(s: Session, a: Arrival): Session {
    var (r, ack) := Receive(s.rcv, a);
    s.(rcv := r, acks := if ack.Some? then s.acks + {ack.value} else s.acks)
  }

  datatype Step = SenderStep(i: Sender.Input) | ReceiverStep(a: Arrival)

  ghost predicate Enabled(s: Session, l: Step) {
    match l
    case SenderStep(i) => !s.finished && InputAvailable(s, i)
    case ReceiverStep(a) => DataAvailable(s, a)
  }

  function Apply(s: Session, l: Step): Session {
    match l
    case SenderStep(i) => SenderTurn(s, i)
    case ReceiverStep(a) => ReceiverTurn(s, a)
  }

  ghost predicate Next(s: Session, t: Session) {
    exists l :: Enabled(s, l) && t == Apply(s, l)
  }

  ghost predicate Run(run: seq<Session>) {
    && run != [] && Init(run[0])
    && forall i :: 0 <= i < |run| - 1 ==> Next(run[i], run[i + 1])
  }

  function Last(run: seq<Session>): Session
    requires run != []
  {
    run[|run| - 1]
  }

  ghost predicate Reachable(s: Session) {
    exists run :: Run(run) && run[|run| - 1] == s
  }

  // ----- the invariant, for sessions of at most 255 chunks -----

  /** `p` carries the chunk with its own number. */
  predicate Carries(chunks: seq<seq<byte>>, p: Packet) {
    p.typ == PTYPE_DATA && p.seqnum < |chunks| && Payload(p) == chunks[p.seqnum]
  }

  predicate AllCarry(chunks: seq<seq<byte>>, slots: Slots) {
    forall i :: 0 <= i < WINDOW_SIZE && slots[i].Some? ==> Carries(chunks, slots[i].value)
  }

  ghost predicate HeldIn(slots: seq<Option<Packet>>, n: int) {
    exists i :: 0 <= i < |slots| && Holds(slots[i], n)
  }

  /** The numbers in the slots are exactly those from `lo` to below `hi`, each once. */
  ghost predicate HoldsInterval(slots: seq<Option<Packet>>, lo: int, hi: int) {
    && lo <= hi
    && (forall i :: 0 <= i < |slots| && slots[i].Some? ==> lo <= slots[i].value.seqnum < hi)
    && (forall i, j :: 0 <= i < j < |slots| && slots[i].Some? && slots[j].Some? ==>
          slots[i].value.seqnum != slots[j].value.seqnum)
    && (forall n :: lo <= n < hi ==> HeldIn(slots, n))
  }

  ghost predicate ReceiverGood(chunks: seq<seq<byte>>, r: ReceiverState) {
    && r.seqnum <= |chunks|
    && r.output == Concat(chunks[..r.seqnum])
    && AllCarry(chunks, r.slots)
  }

  ghost predicate SenderGood(chunks: seq<seq<byte>>, s: Sender.SenderState, acked: nat) {
    && s.seqnum == |chunks|
    && s.lastack <= acked
    && AllCarry(chunks, s.slots)
    && HoldsInterval(s.slots, acked, |chunks|)
    && s.free + Occupied(s.slots) == WINDOW_SIZE
    && |chunks| - acked <= 16
  }

  ghost predicate Good(s: Session) {
    && SenderGood(s.chunks, s.snd, s.acked)
    && ReceiverGood(s.chunks, s.rcv)
    && s.acked <= s.rcv.seqnum
    && (forall p :: p in s.data ==> Carries(s.chunks, p))
    && (forall a :: a in s.acks ==> a.typ == PTYPE_ACK && a.seqnum <= s.rcv.seqnum)
    && Concat(s.chunks) <= s.input
    && (s.finished ==> s.acked == |s.chunks| && Concat(s.chunks) == s.input)
  }

  // ----- the receiver keeps it -----

  lemma {:induction false} DrainGood(chunks: seq<seq<byte>>, r: ReceiverState, i: nat)
    requires |chunks| <= 255 && ReceiverGood(chunks, r)
    ensures var t := DrainFrom(r, i); ReceiverGood(chunks, t) && r.seqnum <= t.seqnum
    decreases Occupied(r.slots), WINDOW_SIZE - i
  {
    if i < WINDOW_SIZE {
      if Holds(r.slots[i], r.seqnum) {
        OccupiedUpdate(r.slots, i, None);
        NextChunk(chunks, r.seqnum);
        DrainGood(chunks, Take(r, i), 1);
      } else {
        DrainGood(chunks, r, i + 1);
      }
    }
  }

  lemma NextChunk(chunks: seq<seq<byte>>, n: nat)
    requires n < |chunks|
    ensures Concat(chunks[..n + 1]) == Concat(chunks[..n]) + chunks[n]
  {
    assert chunks[..n + 1] == chunks[..n] + [chunks[n]];
    ConcatSnoc(chunks[..n], chunks[n]);
  }

  lemma {:induction false} StoreGood(chunks: seq<seq<byte>>, r: ReceiverState, p: Packet, i: nat)
    requires ReceiverGood(chunks, r) && Carries(chunks, p)
    ensures var t := StoreFrom(r, p, i); ReceiverGood(chunks, t) && t.seqnum == r.seqnum
    decreases WINDOW_SIZE - i
  {
    if i < WINDOW_SIZE && !Holds(r.slots[i], p.seqnum) && r.slots[i] != None {
      StoreGood(chunks, r, p, i + 1);
    }
  }

  lemma ReceiveGood(chunks: seq<seq<byte>>, r: ReceiverState, a: Arrival)
    requires |chunks| <= 255 && ReceiverGood(chunks, r) && (a.Decoded? ==> Carries(chunks, a.p))
    ensures var (t, ack) := Receive(r, a);
            && ReceiverGood(chunks, t) && r.seqnum <= t.seqnum
            && (ack.Some? ==> ack.value.typ == PTYPE_ACK && ack.value.seqnum == t.seqnum)
  {
    if a.Decoded? {
      if a.p.seqnum == r.seqnum {
        NextChunk(chunks, r.seqnum);
        DrainGood(chunks, r.(seqnum := IncSeqnum(r.seqnum), output := r.output + Payload(a.p)), 0);
      } else {
        StoreGood(chunks, r, a.p, 0);
      }
    }
  }

  lemma ReceiverTurnGood(s: Session, a: Arrival)
    requires |s.chunks| <= 255 && Good(s) && DataAvailable(s, a)
    ensures Good(ReceiverTurn(s, a))
  {
    ReceiveGood(s.chunks, s.rcv, a);
  }

  // ----- the sender keeps it -----

  /** The interval has as many numbers as there are occupied slots. */
  lemma {:induction false} IntervalOccupied(slots: seq<Option<Packet>>, lo: int, hi: int)
    requires HoldsInterval(slots, lo, hi)
    ensures Occupied(slots) == hi - lo
    decreases hi - lo
  {
    if lo == hi {
      NoneHeld(slots);
    } else {
      assert HeldIn(slots, hi - 1);
      var i :| 0 <= i < |slots| && Holds(slots[i], hi - 1);
      var rest := slots[i := None];
      forall n | lo <= n < hi - 1 ensures HeldIn(rest, n) {
        assert HeldIn(slots, n);
        var j :| 0 <= j < |slots| && Holds(slots[j], n);
        assert Holds(rest[j], n);
      }
      IntervalOccupied(rest, lo, hi - 1);
      OccupiedUpdate(slots, i, None);
    }
  }

  lemma {:induction false} NoneHeld(slots: seq<Option<Packet>>)
    requires forall i :: 0 <= i < |slots| ==> slots[i] == None
    ensures Occupied(slots) == 0
  {
    if slots != [] {
      NoneHeld(slots[..|slots| - 1]);
    }
  }

  /** Freeing below `n` what is acknowledged leaves the interval from the higher of the two. */
  lemma FreedInterval(slots: Slots, lo: int, hi: int, n: uint8, seqnum: uint8)
    requires HoldsInterval(slots, lo, hi) && n <= seqnum == hi
    ensures HoldsInterval(Sender.Freed(slots, n, seqnum), if n > lo then n else lo, hi)
  {
    var freed := Sender.Freed(slots, n, seqnum);
    var low := if n > lo then n else lo;
    forall m | low <= m < hi ensures HeldIn(freed, m) {
      assert HeldIn(slots, m);
      var i :| 0 <= i < |slots| && Holds(slots[i], m);
      assert Holds(freed[i], m);
    }
  }

  lemma OnAckGood(chunks: seq<seq<byte>>, s: Sender.SenderState, acked: nat, a: Arrival)
    requires SenderGood(chunks, s, acked) && (a.Decoded? ==> a.p.typ == PTYPE_ACK && a.p.seqnum <= |chunks|)
    ensures SenderGood(chunks, Sender.OnAck(s, a), HighestAck(acked, Some(a)))
  {
    if a.Decoded? {
      var n := a.p.seqnum;
      FreedInterval(s.slots, acked, |chunks|, n, s.seqnum);
      AllOccupied(Sender.Freed(s.slots, n, s.seqnum));
    }
  }

  /** With the send test passed, at most fifteen packets are unacknowledged and a slot is free. */
  lemma SendTestLeavesRoom(chunks: seq<seq<byte>>, s: Sender.SenderState, acked: nat)
    requires SenderGood(chunks, s, acked) && Sender.CanSend(s)
    ensures |chunks| - acked <= 15 && FirstHole(s.slots) < WINDOW_SIZE
  {
    IntervalOccupied(s.slots, acked, |chunks|);
    if FirstHole(s.slots) == WINDOW_SIZE {
      NoHole(s.slots);
    }
  }

  lemma SendInterval(slots: Slots, lo: int, hi: int, h: nat, p: Packet)
    requires HoldsInterval(slots, lo, hi) && h < WINDOW_SIZE && slots[h] == None && p.seqnum == hi
    ensures HoldsInterval(slots[h := Some(p)], lo, hi + 1)
  {
    var more := slots[h := Some(p)];
    forall n | lo <= n < hi + 1 ensures HeldIn(more, n) {
      if n == hi {
        assert Holds(more[h], n);
      } else {
        assert HeldIn(slots, n);
        var i :| 0 <= i < |slots| && Holds(slots[i], n);
        assert Holds(more[i], n);
      }
    }
  }

  lemma CarriesMore(chunks: seq<seq<byte>>, c: seq<byte>, p: Packet)
    requires Carries(chunks, p)
    ensures Carries(chunks + [c], p)
  {}

  lemma AllCarryMore(chunks: seq<seq<byte>>, c: seq<byte>, slots: Slots)
    requires AllCarry(chunks, slots)
    ensures AllCarry(chunks + [c], slots)
  {
    forall i | 0 <= i < WINDOW_SIZE && slots[i].Some? ensures Carries(chunks + [c], slots[i].value) {
      CarriesMore(chunks, c, slots[i].value);
    }
  }

  lemma SendGood(chunks: seq<seq<byte>>, s: Sender.SenderState, acked: nat, chunk: Sender.Chunk, now: bv32)
    requires SenderGood(chunks, s, acked) && Sender.CanSend(s) && |chunks| < 255
    ensures SenderGood(chunks + [chunk], Sender.Send(s, chunk, now), acked)
    ensures Carries(chunks + [chunk], Sender.ChunkPacket(s, chunk, now))
  {
    SendTestLeavesRoom(chunks, s, acked);
    var h := FirstHole(s.slots);
    var p := Sender.ChunkPacket(s, chunk, now);
    OccupiedUpdate(s.slots, h, Some(p));
    SendInterval(s.slots, acked, |chunks|, h, p);
    AllCarryMore(chunks, chunk, s.slots);
    IntervalOccupied(s.slots, acked, |chunks|);
  }

  lemma ReceiverGoodMore(chunks: seq<seq<byte>>, c: seq<byte>, r: ReceiverState)
    requires ReceiverGood(chunks, r)
    ensures ReceiverGood(chunks + [c], r)
  {
    AllCarryMore(chunks, c, r.slots);
    assert (chunks + [c])[..r.seqnum] == chunks[..r.seqnum];
  }

  /** The first part of a turn: retransmissions and the acknowledgement. */
  lemma AckTurnGood(s: Session, i: Sender.Input)
    requires Good(s) && InputAvailable(s, i)
    ensures SenderGood(s.chunks, Sender.AckTurn(s.snd, i), HighestAck(s.acked, i.ack))
    ensures HighestAck(s.acked, i.ack) <= s.rcv.seqnum
  {
    if i.ack.Some? {
      OnAckGood(s.chunks, Sender.AfterFast(s.snd), s.acked, i.ack.value);
    }
  }

  lemma ResentCarry(s: Session, i: Sender.Input, p: Packet)
    requires Good(s) && p in Sender.Resent(s.snd, i)
    ensures Carries(s.chunks, p)
  {
    Sender.ResentBuffered(s.snd, i, p);
  }

  lemma SenderTurnGood(s: Session, i: Sender.Input)
    requires Good(s) && InputAvailable(s, i) && |SenderTurn(s, i).chunks| <= 255
    ensures Good(SenderTurn(s, i))
  {
    var t := SenderTurn(s, i);
    var mid := Sender.AckTurn(s.snd, i);
    AckTurnGood(s, i);
    if Sender.SendsChunk(s.snd, i) {
      var c := i.read.value;
      SendGood(s.chunks, mid, t.acked, c, i.sendTime);
      ReceiverGoodMore(s.chunks, c, s.rcv);
      ConcatSnoc(s.chunks, c);
    } else if Sender.Ends(s.snd, i) {
      IntervalOccupied(mid.slots, t.acked, |s.chunks|);
    }
    forall p | p in t.data ensures Carries(t.chunks, p) {
      if p in Sender.Resent(s.snd, i) {
        ResentCarry(s, i, p);
      }
      if Carries(s.chunks, p) && Sender.SendsChunk(s.snd, i) {
        CarriesMore(s.chunks, i.read.value, p);
      }
    }
  }

  // ----- theorems over runs -----

  lemma InitGood(s: Session)
    requires Init(s)
    ensures Good(s)
  {
    NoneHeld(s.snd.slots);
  }

  lemma StartReachable(s: Session)
    requires Init(s)
    ensures Reachable(s)
  {
    assert Run([s]) && [s][|[s]| - 1] == s;
  }

  lemma StepReachable(s: Session, l: Step)
    requires Reachable(s) && Enabled(s, l)
    ensures Reachable(Apply(s, l))
  {
    var run :| Run(run) && run[|run| - 1] == s;
    var t := Apply(s, l);
    var more := run + [t];
    forall i | 0 <= i < |more| - 1 ensures Next(more[i], more[i + 1]) {
      if i < |run| - 1 {
        assert Next(run[i], run[i + 1]);
      }
    }
    assert Run(more) && more[|more| - 1] == t;
  }

  /** Every reachable state of a session of at most 255 chunks satisfies the invariant. */
  lemma {:induction false} AlwaysGood(run: seq<Session>)
    requires Run(run) && |run[|run| - 1].chunks| <= 255
    ensures Good(run[|run| - 1])
  {
    if |run| == 1 {
      InitGood(run[0]);
    } else {
      var init := run[..|run| - 1];
      var s, t := run[|run| - 2], run[|run| - 1];
      forall i | 0 <= i < |init| - 1 ensures Next(init[i], init[i + 1]) {
        assert Next(run[i], run[i + 1]);
      }
      assert Next(s, t);
      var l :| Enabled(s, l) && t == Apply(s, l);
      AlwaysGood(init);
      match l
      case SenderStep(i) => SenderTurnGood(s, i);
      case ReceiverStep(a) => ReceiverTurnGood(s, a);
    }
  }

  /** Safety: in every run with at most 255 chunks, whatever the channel does, the receiver
      has written exactly the chunks below the number it expects, hence a prefix
      of the input. */
  lemma OutputIsPrefix(s: Session)
    requires Reachable(s) && |s.chunks| <= 255
    ensures s.rcv.seqnum <= |s.chunks|
    ensures s.rcv.output == Concat(s.chunks[..s.rcv.seqnum]) && s.rcv.output <= s.input
  {
    var run :| Run(run) && run[|run| - 1] == s;
    AlwaysGood(run);
    ConcatPrefix(s.chunks, s.rcv.seqnum);
  }

  /** When the sender leaves its loop at the end of the input, the receiver has written the
      whole input. */
  lemma EndMeansDelivered(s: Session)
    requires Reachable(s) && |s.chunks| <= 255 && s.finished
    ensures s.rcv.output == s.input
  {
    var run :| Run(run) && run[|run| - 1] == s;
    AlwaysGood(run);
    assert s.chunks[..|s.chunks|] == s.chunks;
  }

  /** The sender never forgets undelivered data: its slots hold exactly the numbers from the
      highest acknowledgement processed up to its own, each once and with its chunk;
      everything below has been written. At most 16 packets are unacknowledged,
      and the count of free slots is right. */
  lemma NothingForgotten(s: Session)
    requires Reachable(s) && |s.chunks| <= 255
    ensures s.snd.seqnum == |s.chunks| && s.acked <= s.rcv.seqnum <= s.snd.seqnum <= s.acked + 16
    ensures HoldsInterval(s.snd.slots, s.acked, s.snd.seqnum) && AllCarry(s.chunks, s.snd.slots)
    ensures s.snd.free + Occupied(s.snd.slots) == WINDOW_SIZE
    ensures Occupied(s.snd.slots) == s.snd.seqnum - s.acked
  {
    var run :| Run(run) && run[|run| - 1] == s;
    AlwaysGood(run);
    IntervalOccupied(s.snd.slots, s.acked, |s.chunks|);
  }

  /** Whenever a turn reads a chunk, the packet finds a free slot: it is kept for
      retransmission, even when an old acknowledgement moved `lastack` backwards. */
  lemma NoChunkLost(s: Session, i: Sender.Input)
    requires Reachable(s) && |s.chunks| <= 255 && InputAvailable(s, i) && Sender.SendsChunk(s.snd, i)
    ensures Some(Sender.ChunkPacket(Sender.AckTurn(s.snd, i), i.read.value, i.sendTime)) in Sender.Turn(s.snd, i).slots
  {
    var run :| Run(run) && run[|run| - 1] == s;
    AlwaysGood(run);
    AckTurnGood(s, i);
    var mid := Sender.AckTurn(s.snd, i);
    SendTestLeavesRoom(s.chunks, mid, HighestAck(s.acked, i.ack));
    var h := FirstHole(mid.slots);
    assert Sender.Turn(s.snd, i).slots[h] == Some(Sender.ChunkPacket(mid, i.read.value, i.sendTime));
  }

  /** The packet sent for a chunk has the chunk's place as its number and the slots left free after it
      as its window. */
  lemma ChunkDescribesState(s: Session, i: Sender.Input)
    requires Reachable(s) && |s.chunks| < 255 && InputAvailable(s, i) && Sender.SendsChunk(s.snd, i)
    ensures var p := Sender.ChunkPacket(Sender.AckTurn(s.snd, i), i.read.value, i.sendTime);
            p.seqnum == |s.chunks| && p.window == 31 - Occupied(Sender.Turn(s.snd, i).slots)
  {
    var run :| Run(run) && run[|run| - 1] == s;
    AlwaysGood(run);
    AckTurnGood(s, i);
    WindowIsFree(s.chunks, Sender.AckTurn(s.snd, i), HighestAck(s.acked, i.ack), i.read.value, i.sendTime);
  }

  lemma WindowIsFree(chunks: seq<seq<byte>>, s: Sender.SenderState, acked: nat, chunk: Sender.Chunk, now: bv32)
    requires SenderGood(chunks, s, acked) && Sender.CanSend(s)
    ensures var p := Sender.ChunkPacket(s, chunk, now);
            p.seqnum == |chunks| && p.window == 31 - Occupied(Sender.Send(s, chunk, now).slots)
  {
    var h := FirstHole(s.slots);
    SendTestLeavesRoom(chunks, s, acked);
    OccupiedUpdate(s.slots, h, Some(Sender.ChunkPacket(s, chunk, now)));
    AllOccupied(s.slots[h := Some(Sender.ChunkPacket(s, chunk, now))]);
  }

  /** A number held in one slot selects that slot's packet, a number not held nothing. */
  lemma {:induction false} SelectNumber(slots: seq<Option<Packet>>, n: uint8)
    requires forall i, j :: 0 <= i < j < |slots| && slots[i].Some? && slots[j].Some? ==>
                              slots[i].value.seqnum != slots[j].value.seqnum
    ensures var sel := Sender.Select(slots, Sender.Asked(n));
            if HeldIn(slots, n) then |sel| == 1 && Some(sel[0]) in slots && sel[0].seqnum == n else sel == []
  {
    if slots != [] {
      var k := |slots| - 1;
      SelectNumber(slots[..k], n);
      if HeldIn(slots[..k], n) {
        var i :| 0 <= i < k && Holds(slots[..k][i], n);
        assert Holds(slots[i], n) && !Holds(slots[k], n);
      }
      if HeldIn(slots, n) {
        var i :| 0 <= i < |slots| && Holds(slots[i], n);
        assert i < k ==> Holds(slots[..k][i], n);
      }
    }
  }

  /** Fast retransmit resends exactly the chunk that the last acknowledgement asks for, if three
      repetitions are counted and that chunk is still unacknowledged, and nothing
      otherwise: an older acknowledgement asks for a chunk no longer buffered, and one of
      everything asks for a chunk not yet read. */
  lemma FastRetransmitsAsked(s: Session)
    requires Reachable(s) && |s.chunks| <= 255
    ensures var sent := Sender.FastResent(s.snd);
            if s.snd.count >= 3 && s.acked <= s.snd.lastack < |s.chunks|
            then |sent| == 1 && sent[0].seqnum == s.snd.lastack && Carries(s.chunks, sent[0])
            else sent == []
  {
    var run :| Run(run) && run[|run| - 1] == s;
    AlwaysGood(run);
    SelectNumber(s.snd.slots, s.snd.lastack);
    var sent := Sender.FastResent(s.snd);
    if s.snd.count >= 3 && s.acked <= s.snd.lastack < |s.chunks| {
      assert HeldIn(s.snd.slots, s.snd.lastack);
    }
  }

  lemma TimerGuard(chunks: seq<seq<byte>>, s: Sender.SenderState, acked: nat, p: Packet)
    requires SenderGood(chunks, s, acked) && Some(p) in s.slots
    ensures s.free < WINDOW_SIZE && p.seqnum <= s.seqnum
  {
    var i :| 0 <= i < WINDOW_SIZE && s.slots[i] == Some(p);
    OccupiedUpdate(s.slots, i, None);
  }

  /** The timer resends exactly the unacknowledged packets stamped before the current
      second: neither the count of free slots nor the number of a packet ever holds one back. */
  lemma TimerResendsOld(s: Session, now: bv32, p: Packet)
    requires Reachable(s) && |s.chunks| <= 255
    ensures p in Sender.TimedOut(s.snd, now) <==> Some(p) in s.snd.slots && Sender.Older(p, now)
  {
    var run :| Run(run) && run[|run| - 1] == s;
    AlwaysGood(run);
    Sender.SelectBuffered(s.snd.slots, Sender.Due(now, s.snd.seqnum), p);
    if Some(p) in s.snd.slots {
      TimerGuard(s.chunks, s.snd, s.acked, p);
    }
  }

  /** Everything the sender still buffers has been sent at least once. */
  ghost predicate BufferedWasSent(s: Session) {
    forall i :: 0 <= i < WINDOW_SIZE && s.snd.slots[i].Some? ==> s.snd.slots[i].value in s.data
  }

  lemma BufferedStep(s: Session, l: Step)
    requires BufferedWasSent(s)
    ensures BufferedWasSent(Apply(s, l))
  {
    if l.SenderStep? {
      var t, mid := Apply(s, l), Sender.AckTurn(s.snd, l.i);
      forall k | 0 <= k < WINDOW_SIZE && t.snd.slots[k].Some? ensures t.snd.slots[k].value in t.data {
        if t.snd.slots[k] == mid.slots[k] {
          assert mid.slots[k] == s.snd.slots[k];
        } else {
          assert t.snd.slots[k].value in Sender.Sent(s.snd, l.i);
        }
      }
    }
  }

  lemma {:induction false} AlwaysBuffered(run: seq<Session>)
    requires Run(run)
    ensures BufferedWasSent(Last(run))
  {
    if |run| > 1 {
      var init := run[..|run| - 1];
      forall i | 0 <= i < |init| - 1 ensures Next(init[i], init[i + 1]) {
        assert Next(run[i], run[i + 1]);
      }
      AlwaysBuffered(init);
      assert Next(run[|run| - 2], run[|run| - 1]);
      var l :| Enabled(Last(init), l) && Last(run) == Apply(Last(init), l);
      BufferedStep(Last(init), l);
    }
  }
}
