/** The same transfer at the level of bytes: datagrams are the encodings of packets, the
    channel damages and cuts them, and both ends decode what arrives. Unless a chunk can be
    taken for another one, such a run is a run of `Transfer`, so its theorems hold on the wire. */
module Wire {
  import opened Basics
  import opened Codec
  import opened Corruption
  import opened CrcErrors
  import opened Receiver
  import opened Transfer
  import opened Truncation
  import ReceiverLoop
  import Sender
  import LinkModel
  import WrapAround

  /** How datagrams get to the receiver: on their own, or all of them through the link
      simulator, which may be told to make errors. */
  datatype Channel = Direct | Link(errors: bool)

  function Replaced(sent: seq<byte>, i: nat, b: byte): seq<byte>
    requires i < |sent|
  {
    sent[i := b]
  }

  lemma ReplaceSame(s: seq<byte>, i: nat, b: byte)
    requires i < |s| && s[i] == b
    ensures Replaced(s, i, b) == s
  {}

  /** `d` is `sent`, possibly with one byte replaced. */
  ghost predicate Damaged(sent: seq<byte>, d: seq<byte>) {
    d == sent || exists i: nat, b: byte :: i < |sent| && d == Replaced(sent, i, b)
  }

  /** `d` is what the link makes of `sent`: it cuts it and then, perhaps, inverts a byte. */
  ghost predicate Linked(errors: bool, sent: seq<byte>, d: seq<byte>) {
    var kept := Kept(sent, MAX_PKT_LEN);
    d == kept || (errors && exists i :: 0 <= i < |kept| && d == Inverted(kept, i))
  }

  /** What the receiver may find in its buffer for a DATA packet of which `len` bytes arrive.
      Behind them may be anything, but through the link nothing ever came to lie
      behind the first 524 bytes. */
  ghost predicate DataOnWire(ch: Channel, p: Packet, data: seq<byte>, len: nat) {
    && Encodable(p) && |Encode(p)| <= MAX_PACKET_SIZE && |data| == MAX_PACKET_SIZE
    && exists d :: d <= data && len == |d|
                   && match ch
                      case Direct => Damaged(Encode(p), d)
                      case Link(errors) => Linked(errors, Encode(p), d) && ZeroFrom(data, MAX_PKT_LEN)
  }

  /** What the sender may find in its buffer for an acknowledgement: 512 bytes, padded. */
  ghost predicate AckOnWire(a: Packet, data: seq<byte>) {
    Encodable(a) && a.payload == None && Damaged(Padded(a, MAX_PAYLOAD_SIZE), data)
  }

  // ----- packets of a session are well formed, however long the session -----

  predicate DataForm(p: Packet) {
    p.typ == PTYPE_DATA && p.payload.Some? && Consistent(p) && Acceptable(p)
  }

  predicate AckForm(a: Packet) {
    a.typ == PTYPE_ACK && !a.tr && a.length == 0 && a.payload == None
  }

  /** A packet carries one of the chunks. */
  predicate Of(chunks: seq<seq<byte>>, p: Packet) {
    DataForm(p) && p.payload.value in chunks
  }

  ghost predicate WellFormed(s: Session) {
    && (forall p :: p in s.data ==> Of(s.chunks, p))
    && (forall i :: 0 <= i < WINDOW_SIZE && s.snd.slots[i].Some? ==> Of(s.chunks, s.snd.slots[i].value))
    && (forall a :: a in s.acks ==> AckForm(a))
  }

  lemma TurnForm(s: Session, i: Sender.Input, p: Packet)
    requires WellFormed(s) && (p in Sender.Sent(s.snd, i) || Some(p) in Sender.Turn(s.snd, i).slots)
    ensures Of(SenderTurn(s, i).chunks, p)
  {
    var t := SenderTurn(s, i);
    if p in Sender.Resent(s.snd, i) {
      Sender.ResentBuffered(s.snd, i, p);
      assert Of(s.chunks, p);
    } else if Sender.SendsChunk(s.snd, i)
              && p == Sender.ChunkPacket(Sender.AckTurn(s.snd, i), i.read.value, i.sendTime) {
      assert t.chunks[|s.chunks|] == i.read.value;
    } else {
      var k :| 0 <= k < WINDOW_SIZE && Sender.Turn(s.snd, i).slots[k] == Some(p);
      assert Sender.AckTurn(s.snd, i).slots[k] == Some(p);
      assert s.snd.slots[k] == Some(p);
      assert Of(s.chunks, p);
    }
  }

  lemma WellFormedStep(s: Session, l: Step)
    requires WellFormed(s)
    ensures WellFormed(Apply(s, l))
  {
    if l.SenderStep? {
      var t := Apply(s, l);
      forall p | p in t.data ensures Of(t.chunks, p) {
        if p in Sender.Sent(s.snd, l.i) {
          TurnForm(s, l.i, p);
        } else {
          assert Of(s.chunks, p);
        }
      }
      forall k | 0 <= k < WINDOW_SIZE && t.snd.slots[k].Some? ensures Of(t.chunks, t.snd.slots[k].value) {
        TurnForm(s, l.i, t.snd.slots[k].value);
      }
    }
  }

  // ----- decoding what arrives -----

  /** A whole datagram with a byte replaced perhaps, decoded where it ends. */
  lemma DamagedDataArrives(p: Packet, d: seq<byte>)
    requires DataForm(p) && Damaged(Encode(p), d)
    ensures Readable(d, |d|) && ReceiverLoop.ArrivalOf(d, |d|) in {Rejected, Decoded(p)}
  {
    var e := Encode(p);
    if d == e {
      RoundTrip(p, [], None);
      assert e + [] == e;
    } else {
      var i: nat, b: byte :| i < |e| && d == Replaced(e, i, b);
      if e[i] == b {
        ReplaceSame(e, i, b);
      }
      OneByteRejected(p, i, b);
    }
  }

  lemma DirectArrives(p: Packet, d: seq<byte>, tail: seq<byte>)
    requires DataForm(p) && Damaged(Encode(p), d)
    ensures Readable(d + tail, |d|) && ReceiverLoop.ArrivalOf(d + tail, |d|) in {Rejected, Decoded(p)}
  {
    DamagedDataArrives(p, d);
    BufferFrame(d, tail, |d|, None);
  }

  /** What the receiver may take for the payload `c`: itself, as far as the link leaves its checksum
      recognizable, or, if the link makes errors, something that passes for it. */
  ghost predicate Accepted(ch: Channel, c: seq<byte>, w: seq<byte>) {
    match ch
    case Direct => w == c
    case Link(errors) =>
      || (w == c && Survives(c))
      || (errors && exists j :: 0 <= j < |c| && w == Inverted(c, j) && Passes(c, w, MAX_PKT_LEN))
  }

  function WithPayload(p: Packet, w: seq<byte>): Packet { p.(payload := Some(w)) }

  /** A DATA datagram on the wire is rejected or decodes as the packet sent, with a payload that
      may be taken for the one sent. */
  lemma ArrivesAs(ch: Channel, p: Packet, data: seq<byte>, len: nat) returns (w: seq<byte>)
    requires DataForm(p) && DataOnWire(ch, p, data, len)
    ensures Readable(data, len)
    ensures var a := ReceiverLoop.ArrivalOf(data, len);
            a == Rejected || (a == Decoded(WithPayload(p, w)) && Accepted(ch, p.payload.value, w))
  {
    var e := Encode(p);
    w := p.payload.value;
    match ch
    case Direct =>
      var d :| d <= data && len == |d| && Damaged(e, d);
      assert data == d + data[|d|..];
      DirectArrives(p, d, data[|d|..]);
    case Link(errors) =>
      var d :| d <= data && len == |d| && Linked(errors, e, d) && ZeroFrom(data, MAX_PKT_LEN);
      w := LinkArrives(errors, p, data, d);
  }

  lemma LinkArrives(errors: bool, p: Packet, data: seq<byte>, d: seq<byte>) returns (w: seq<byte>)
    requires DataForm(p) && |Encode(p)| <= MAX_PACKET_SIZE
    requires Linked(errors, Encode(p), d) && InBuffer(d, MAX_PKT_LEN, data)
    ensures Readable(data, |d|)
    ensures var a := ReceiverLoop.ArrivalOf(data, |d|);
            a == Rejected || (a == Decoded(WithPayload(p, w)) && Accepted(Link(errors), p.payload.value, w))
  {
    var kept := Kept(Encode(p), MAX_PKT_LEN);
    w := p.payload.value;
    if d == kept {
      TruncatedDatagram(p, MAX_PKT_LEN, data);
      LostBytes(p, MAX_PKT_LEN);
    } else {
      var i :| 0 <= i < |kept| && d == Inverted(kept, i);
      CutAndInverted(p, MAX_PKT_LEN, i, data);
      if 12 <= i < 12 + p.length {
        w := Inverted(p.payload.value, i - 12);
      }
    }
  }

  /** Unless it can be taken for another one, only a payload itself is accepted for it. */
  lemma AcceptedItself(ch: Channel, c: seq<byte>, w: seq<byte>)
    requires Accepted(ch, c, w) && (ch == Link(true) ==> !Confusable(c))
    ensures w == c
  {}

  /** A DATA datagram on the wire decodes as the packet sent or not at all, unless the link makes
      errors and the payload can be taken for another one. */
  lemma DataArrives(ch: Channel, p: Packet, data: seq<byte>, len: nat)
    requires DataForm(p) && DataOnWire(ch, p, data, len)
    ensures Readable(data, len)
    ensures (ch == Link(true) ==> !Confusable(p.payload.value)) ==>
              ReceiverLoop.ArrivalOf(data, len) in {Rejected, Decoded(p)}
  {
    var w := ArrivesAs(ch, p, data, len);
    if Accepted(ch, p.payload.value, w) && (ch == Link(true) ==> !Confusable(p.payload.value)) {
      AcceptedItself(ch, p.payload.value, w);
    }
  }

  /** What the sender makes of the bytes of an acknowledgement; its decoding packet
      is reused, so it still holds an earlier payload, which the padding replaces. */
  function AckArrival(data: seq<byte>, held: Option<seq<byte>>): Arrival
    requires Readable(data, |data|)
  {
    if DecodeStatus(data, |data|) == PktOk then Decoded(DecodedPacket(data, |data|, held)) else Rejected
  }

  lemma AckArrives(a: Packet, data: seq<byte>, held: Option<seq<byte>>)
    requires AckForm(a) && AckOnWire(a, data)
    ensures Readable(data, |data|) && AckArrival(data, held) in {Rejected, Decoded(AsDecoded(a))}
  {
    var e := Padded(a, MAX_PAYLOAD_SIZE);
    if data == e {
      PaddedAckDecodes(a, MAX_PAYLOAD_SIZE, held);
    } else {
      var i: nat, b: byte :| i < |e| && data == Replaced(e, i, b);
      if e[i] == b {
        ReplaceSame(e, i, b);
      }
      PaddedAckOneByte(a, MAX_PAYLOAD_SIZE, i, b, held);
    }
  }

  // ----- runs over bytes -----

  /** What the receiver may make of a DATA packet, and the sender of an acknowledgement. */
  ghost predicate DataFrom(ch: Channel, p: Packet, a: Arrival) {
    exists data, len :: DataOnWire(ch, p, data, len) && Readable(data, len) && a == ReceiverLoop.ArrivalOf(data, len)
  }

  ghost predicate AckFrom(ack: Packet, a: Arrival) {
    exists data, held :: AckOnWire(ack, data) && Readable(data, |data|) && a == AckArrival(data, held)
  }

  /** Steps whose arrivals are decoded from bytes on the wire. */
  ghost predicate DataDelivered(ch: Channel, s: Session, a: Arrival) {
    exists p :: p in s.data && DataFrom(ch, p, a)
  }

  ghost predicate AckDelivered(s: Session, a: Arrival) {
    exists ack :: ack in s.acks && AckFrom(ack, a)
  }

  ghost predicate WireEnabled(ch: Channel, s: Session, l: Step) {
    match l
    case SenderStep(i) =>
      && !s.finished
      && (i.ack.Some? ==> AckDelivered(s, i.ack.value))
      && (i.read.Some? ==> ReadPossible(s, i.read.value))
    case ReceiverStep(a) => DataDelivered(ch, s, a)
  }

  ghost predicate WireNext(ch: Channel, s: Session, t: Session) {
    exists l :: WireEnabled(ch, s, l) && t == Apply(s, l)
  }

  ghost predicate WireRun(ch: Channel, run: seq<Session>) {
    && run != [] && Init(run[0])
    && forall i :: 0 <= i < |run| - 1 ==> WireNext(ch, run[i], run[i + 1])
  }

  /** No chunk can be taken for another one on this channel. */
  predicate Sound(ch: Channel, chunks: seq<seq<byte>>) {
    ch == Link(true) ==> forall k :: 0 <= k < |chunks| ==> !Confusable(chunks[k])
  }

  lemma FromAck(ack: Packet, a: Arrival)
    requires AckForm(ack) && AckFrom(ack, a)
    ensures a in {Rejected, Decoded(AsDecoded(ack))}
  {
    var data, held :| AckOnWire(ack, data) && Readable(data, |data|) && a == AckArrival(data, held);
    AckArrives(ack, data, held);
  }

  lemma FromData(ch: Channel, p: Packet, a: Arrival) returns (w: seq<byte>)
    requires DataForm(p) && DataFrom(ch, p, a)
    ensures a == Rejected || (a == Decoded(WithPayload(p, w)) && Accepted(ch, p.payload.value, w))
  {
    var data, len :| DataOnWire(ch, p, data, len) && Readable(data, len) && a == ReceiverLoop.ArrivalOf(data, len);
    w := ArrivesAs(ch, p, data, len);
  }

  lemma AckAvailableOnWire(s: Session, a: Arrival)
    requires WellFormed(s) && AckDelivered(s, a)
    ensures AckAvailable(s, a)
  {
    var ack :| ack in s.acks && AckFrom(ack, a);
    FromAck(ack, a);
  }

  lemma WireStep(ch: Channel, s: Session, l: Step)
    requires WellFormed(s) && Sound(ch, s.chunks) && WireEnabled(ch, s, l)
    ensures Enabled(s, l)
  {
    match l
    case SenderStep(i) =>
      if i.ack.Some? {
        AckAvailableOnWire(s, i.ack.value);
      }
    case ReceiverStep(a) =>
      var p :| p in s.data && DataFrom(ch, p, a);
      assert Of(s.chunks, p);
      var w := FromData(ch, p, a);
      if a.Decoded? {
        AcceptedItself(ch, p.payload.value, w);
      }
  }

  lemma WirePrefix(ch: Channel, run: seq<Session>, n: nat)
    requires WireRun(ch, run) && 0 < n <= |run|
    ensures WireRun(ch, run[..n])
  {
    var init := run[..n];
    forall i | 0 <= i < |init| - 1 ensures WireNext(ch, init[i], init[i + 1]) {
      assert WireNext(ch, run[i], run[i + 1]);
    }
  }

  /** The last step of a run. */
  lemma LastStep(ch: Channel, run: seq<Session>) returns (init: seq<Session>, l: Step)
    requires WireRun(ch, run) && |run| > 1
    ensures init == run[..|run| - 1] && WireRun(ch, init)
    ensures WireEnabled(ch, Last(init), l) && Last(run) == Apply(Last(init), l)
    ensures Last(init).chunks <= Last(run).chunks
  {
    init := run[..|run| - 1];
    WirePrefix(ch, run, |run| - 1);
    assert Last(init) == run[|run| - 2] && WireNext(ch, run[|run| - 2], run[|run| - 1]);
    l :| WireEnabled(ch, Last(init), l) && Last(run) == Apply(Last(init), l);
  }

  lemma {:induction false} AlwaysWellFormed(ch: Channel, run: seq<Session>)
    requires WireRun(ch, run)
    ensures WellFormed(Last(run))
  {
    if |run| > 1 {
      var init, l := LastStep(ch, run);
      AlwaysWellFormed(ch, init);
      WellFormedStep(Last(init), l);
    }
  }

  /** Chunks are only ever added. */
  lemma {:induction false} ChunksGrow(ch: Channel, run: seq<Session>, i: nat)
    requires WireRun(ch, run) && i < |run|
    ensures run[i].chunks <= Last(run).chunks
    decreases |run| - i
  {
    if i < |run| - 1 {
      assert WireNext(ch, run[i], run[i + 1]);
      ChunksGrow(ch, run, i + 1);
    }
  }

  lemma WireNextIsNext(ch: Channel, s: Session, t: Session)
    requires WellFormed(s) && Sound(ch, s.chunks) && WireNext(ch, s, t)
    ensures Next(s, t)
  {
    var l :| WireEnabled(ch, s, l) && t == Apply(s, l);
    WireStep(ch, s, l);
  }

  lemma SoundPrefix(ch: Channel, chunks: seq<seq<byte>>, more: seq<seq<byte>>)
    requires chunks <= more && Sound(ch, more)
    ensures Sound(ch, chunks)
  {
    if ch == Link(true) {
      forall k | 0 <= k < |chunks| ensures !Confusable(chunks[k]) {
        assert chunks[k] == more[k];
      }
    }
  }

  /** Refinement: a run over bytes is a run of the session over packets. */
  lemma WireRunIsRun(ch: Channel, run: seq<Session>)
    requires WireRun(ch, run) && Sound(ch, Last(run).chunks)
    ensures Run(run)
  {
    forall i | 0 <= i < |run| - 1 ensures Next(run[i], run[i + 1]) {
      WirePrefix(ch, run, i + 1);
      AlwaysWellFormed(ch, run[..i + 1]);
      ChunksGrow(ch, run, i);
      SoundPrefix(ch, run[i].chunks, Last(run).chunks);
      assert WireNext(ch, run[i], run[i + 1]);
      WireNextIsNext(ch, run[i], run[i + 1]);
    }
  }

  /** Over a wire that loses, delays, reorders, repeats, damages and cuts datagrams, a session of
      at most 255 chunks, none of which can be taken for another one, never writes anything
      but a prefix of the input; and one of at most 495 that ends has written it all. */
  lemma WireSafety(ch: Channel, run: seq<Session>)
    requires WireRun(ch, run) && Sound(ch, Last(run).chunks)
    ensures var s := Last(run);
            && (|s.chunks| <= 255 ==>
                  && s.rcv.seqnum <= |s.chunks|
                  && s.rcv.output == Concat(s.chunks[..s.rcv.seqnum])
                  && s.rcv.output <= s.input)
            && (|s.chunks| <= 495 && s.finished ==> s.rcv.output == s.input)
  {
    WireRunIsRun(ch, run);
    var s := Last(run);
    assert Reachable(s);
    if |s.chunks| <= 255 {
      OutputIsPrefix(s);
    }
    WrapAround.CompleteIff(495);
  }

  // ----- a chunk that is taken for another one -----

  function FirstPacket(c: Sender.Chunk): Packet { Packet(PTYPE_DATA, false, 30, 0, |c|, 0, Some(c)) }

  function Start(c: Sender.Chunk): Session {
    Session(c, [], Sender.Start(), Receiver.Start(), {}, {}, 0, false)
  }

  lemma WireSnoc(ch: Channel, run: seq<Session>, t: Session)
    requires WireRun(ch, run) && WireNext(ch, Last(run), t)
    ensures WireRun(ch, run + [t])
  {
    forall i | 0 <= i < |run| ensures WireNext(ch, (run + [t])[i], (run + [t])[i + 1]) {
      WireNextAt(ch, run, t, i);
    }
  }

  lemma WireNextAt(ch: Channel, run: seq<Session>, t: Session, i: nat)
    requires WireRun(ch, run) && WireNext(ch, Last(run), t) && i < |run|
    ensures WireNext(ch, (run + [t])[i], (run + [t])[i + 1])
  {}

  lemma WireExtend(ch: Channel, run: seq<Session>, l: Step) returns (more: seq<Session>)
    requires WireRun(ch, run) && WireEnabled(ch, Last(run), l)
    ensures WireRun(ch, more) && run <= more && Last(more) == Apply(Last(run), l)
  {
    more := run + [Apply(Last(run), l)];
    WireSnoc(ch, run, Last(more));
  }

  lemma FirstSent(c: Sender.Chunk) returns (run: seq<Session>)
    requires c != []
    ensures WireRun(Link(true), run)
    ensures var t := Last(run);
            t.input == c && t.chunks == [c] && t.data == {FirstPacket(c)} && t.rcv == Receiver.Start()
  {
    assert Concat(Start(c).chunks) + c == c;
    run := WireExtend(Link(true), [Start(c)], SenderStep(Sender.Input(0, None, Some(c), 0)));
  }

  /** Whatever may be taken for the payload of a packet, the channel can deliver. */
  lemma AcceptedArrives(ch: Channel, p: Packet, w: seq<byte>)
    requires DataForm(p) && Accepted(ch, p.payload.value, w)
    ensures DataFrom(ch, p, Decoded(WithPayload(p, w)))
  {
    var c := p.payload.value;
    if ch == Direct {
      WholeArrival(p);
    } else if w == c && Survives(c) {
      RightArrival(ch.errors, p);
    } else {
      var j: nat :| j < |c| && w == Inverted(c, j) && Passes(c, w, MAX_PKT_LEN);
      var data, len := WrongArrival(p, j);
    }
  }

  lemma WholeArrival(p: Packet)
    requires DataForm(p)
    ensures DataFrom(Direct, p, Decoded(p))
  {
    var e := Encode(p);
    var tail := Zeros(MAX_PACKET_SIZE - |e|);
    RoundTrip(p, tail, None);
    assert e <= e + tail;
    assert DataOnWire(Direct, p, e + tail, |e|);
  }

  lemma RightArrival(errors: bool, p: Packet)
    requires DataForm(p) && Survives(p.payload.value)
    ensures DataFrom(Link(errors), p, Decoded(p))
  {
    var d := Kept(Encode(p), MAX_PKT_LEN);
    var data := ZeroPadded(d);
    TruncatedDatagram(p, MAX_PKT_LEN, data);
    LostBytes(p, MAX_PKT_LEN);
    assert Linked(errors, Encode(p), d);
    assert DataOnWire(Link(errors), p, data, |d|);
  }

  lemma PlainAck(ack: Packet)
    requires AckForm(ack)
    ensures AckFrom(ack, Decoded(AsDecoded(ack)))
  {
    var data := Padded(ack, MAX_PAYLOAD_SIZE);
    PaddedAckDecodes(ack, MAX_PAYLOAD_SIZE, None);
    assert AckOnWire(ack, data) && AckArrival(data, None) == Decoded(AsDecoded(ack));
  }

  lemma WrongArrival(p: Packet, j: nat) returns (data: seq<byte>, len: nat)
    requires DataForm(p) && j < p.length && Passes(p.payload.value, Inverted(p.payload.value, j), MAX_PKT_LEN)
    ensures DataOnWire(Link(true), p, data, len) && Readable(data, len)
    ensures ReceiverLoop.ArrivalOf(data, len) == Decoded(WithPayload(p, Inverted(p.payload.value, j)))
  {
    var d := Inverted(Kept(Encode(p), MAX_PKT_LEN), 12 + j);
    WrongLinked(p, 12 + j);
    data, len := ZeroPadded(d), |d|;
    CutAndInverted(p, MAX_PKT_LEN, 12 + j, data);
  }

  lemma WrongLinked(p: Packet, j: nat)
    requires DataForm(p) && j < 12 + p.length
    ensures Cuttable(p, MAX_PKT_LEN) && j < |Kept(Encode(p), MAX_PKT_LEN)|
    ensures Linked(true, Encode(p), Inverted(Kept(Encode(p), MAX_PKT_LEN), j))
  {
    assert Cuttable(p, MAX_PKT_LEN);
  }

  function ZeroPadded(d: seq<byte>): (data: seq<byte>)
    requires |d| <= MAX_PKT_LEN
    ensures InBuffer(d, MAX_PKT_LEN, data)
  {
    d + Zeros(MAX_PACKET_SIZE - |d|)
  }

  lemma WrongWritten(s: Session, p: Packet, c: seq<byte>)
    requires s.rcv == Receiver.Start() && p.typ == PTYPE_DATA && p.seqnum == 0
    requires p.payload == Some(c) && p.length == |c|
    ensures Apply(s, ReceiverStep(Decoded(p))).rcv.output == c
  {
    WrapAround.DrainNothing(s.rcv.(seqnum := 1, output := s.rcv.output + Payload(p)), 0);
  }

  /** A chunk that can be taken for another one is: in some run with this chunk as its whole
      input the receiver writes something else. */
  lemma ConfusedRun(c: Sender.Chunk) returns (run: seq<Session>)
    requires Confusable(c)
    ensures WireRun(Link(true), run)
    ensures var s := Last(run); s.chunks == [c] && s.input == c && !(s.rcv.output <= s.input)
  {
    var j: nat :| j < |c| && Passes(c, Inverted(c, j), MAX_PKT_LEN);
    var q := WithPayload(FirstPacket(c), Inverted(c, j));
    run := FirstSent(c);
    AcceptedArrives(Link(true), FirstPacket(c), Inverted(c, j));
    WrongWritten(Last(run), q, Inverted(c, j));
    run := WireExtend(Link(true), run, ReceiverStep(Decoded(q)));
    InvertedDiffers(c, j, c);
  }

  predicate AtMost(chunks: seq<seq<byte>>, limit: nat) {
    forall k :: 0 <= k < |chunks| ==> |chunks[k]| <= limit
  }

  ghost predicate LinkPrefix(limit: nat) {
    forall run: seq<Session> ::
      WireRun(Link(true), run) && AtMost(Last(run).chunks, limit) && |Last(run).chunks| <= 255
      ==> Last(run).rcv.output <= Last(run).input
  }

  /** Over the link, with errors, the output of all sessions of at most 255 chunks is a prefix of the input
      exactly for chunks of at most 510 bytes. The sender's chunks have up to 512. */
  lemma LinkPrefixIff(limit: nat)
    ensures LinkPrefix(limit) <==> limit <= 510
  {
    if limit <= 510 {
      forall run: seq<Session> |
        WireRun(Link(true), run) && AtMost(Last(run).chunks, limit) && |Last(run).chunks| <= 255
        ensures Last(run).rcv.output <= Last(run).input
      {
        var chunks := Last(run).chunks;
        forall k | 0 <= k < |chunks| ensures !Confusable(chunks[k]) {
          ConfusableIff(chunks[k]);
        }
        WireSafety(Link(true), run);
      }
    } else {
      RightIsConfusable();
      var run := ConfusedRun(Right());
    }
  }

  /** And for a single chunk: exactly when it cannot be taken for another one. */
  lemma OneChunkIff(c: Sender.Chunk)
    ensures !Confusable(c) <==>
            forall run: seq<Session> :: WireRun(Link(true), run) && Last(run).chunks == [c]
                          ==> Last(run).rcv.output <= Last(run).input
  {
    if Confusable(c) {
      var run := ConfusedRun(c);
    } else {
      forall run: seq<Session> | WireRun(Link(true), run) && Last(run).chunks == [c]
        ensures Last(run).rcv.output <= Last(run).input
      {
        WireSafety(Link(true), run);
      }
    }
  }

  /** What the link simulator does to a packet that it does not drop. What is not cut, such as
      an acknowledgement, has at most one byte replaced. */
  lemma LinkDamages(cfg: LinkModel.Config, r: LinkModel.Draws, sent: seq<byte>)
    requires sent != []
    ensures var d := LinkModel.Damaged(cfg, r, Kept(sent, MAX_PKT_LEN));
            Linked(cfg.errRate != 0, sent, d) && (|sent| <= MAX_PKT_LEN ==> Damaged(sent, d))
  {
    var kept := Kept(sent, MAX_PKT_LEN);
    var i := r.index % |kept|;
    assert LinkModel.Damages(cfg, r) ==> LinkModel.Damaged(cfg, r, kept) == Inverted(kept, i);
    assert Inverted(kept, i) == Replaced(kept, i, !kept[i]);
  }
}
