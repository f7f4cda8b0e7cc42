/** The body of `receiver_loop` for one datagram, imperative, and its reply. */
module ReceiverLoop {
  import opened Basics
  import opened Codec
  import opened Receiver
  import opened Corruption
  import opened PacketInterface
  import opened Truncation

  /** What decoding into a fresh packet makes of a datagram. */
  function ArrivalOf(data: seq<byte>, len: nat): Arrival
    requires Readable(data, len)
  {
    if DecodeStatus(data, len) == PktOk then Decoded(DecodedPacket(data, len, None)) else Rejected
  }

  // ----- the receive buffer -----

  /** The receive buffer when `d` has arrived. */
  function Received(buffer: seq<byte>, d: seq<byte>): (s: seq<byte>)
    requires |d| <= |buffer|
    ensures |s| == |buffer|
  {
    d + buffer[|d|..]
  }

  function Cleared(buffer: seq<byte>, n: nat): (s: seq<byte>)
    requires n <= |buffer|
    ensures |s| == |buffer|
  {
    Zeros(n) + buffer[n..]
  }

  /** The receive buffer after some datagrams, each with the number of bytes cleared after it. */
  function BufferAfter(buffer: seq<byte>, ds: seq<(seq<byte>, nat)>): (s: seq<byte>)
    requires forall k :: 0 <= k < |ds| ==> |ds[k].0| <= |buffer| && ds[k].1 <= |buffer|
    ensures |s| == |buffer|
    decreases |ds|
  {
    if ds == [] then buffer else BufferAfter(Cleared(Received(buffer, ds[0].0), ds[0].1), ds[1..])
  }

  /** When all datagrams came through the link, the next one lands in a buffer whose bytes from
      524 on are 0, however much was cleared. */
  lemma {:induction false} ThroughLink(buffer: seq<byte>, ds: seq<(seq<byte>, nat)>, d: seq<byte>)
    requires |buffer| == MAX_PACKET_SIZE && ZeroFrom(buffer, MAX_PKT_LEN) && |d| <= MAX_PKT_LEN
    requires forall k :: 0 <= k < |ds| ==> |ds[k].0| <= MAX_PKT_LEN && ds[k].1 <= MAX_PACKET_SIZE
    ensures InBuffer(d, MAX_PKT_LEN, Received(BufferAfter(buffer, ds), d))
    decreases |ds|
  {
    if ds != [] {
      var next := Cleared(Received(buffer, ds[0].0), ds[0].1);
      assert ZeroFrom(next, MAX_PKT_LEN);
      ThroughLink(next, ds[1..], d);
    }
  }

  class Loop {
    const receiverBuffer: array<Option<Packet>>
    var len: nat
    var seqnum: uint8
    var window: nat
    var output: seq<byte>

    ghost predicate Valid()
      reads this, receiverBuffer
    {
      && receiverBuffer.Length == WINDOW_SIZE && Balanced(Contents())
      && MAX_PAYLOAD_SIZE <= len <= MAX_PACKET_SIZE
    }

    function Contents(): ReceiverState
      requires receiverBuffer.Length == WINDOW_SIZE
      reads this, receiverBuffer
    {
      ReceiverState(seqnum, window, receiverBuffer[..], output)
    }

    constructor ()
      ensures Valid() && fresh(receiverBuffer) && Contents() == Start() && len == MAX_PACKET_SIZE
    {
      var slots := new Option<Packet>[WINDOW_SIZE](_ => None);
      receiverBuffer := slots;
      seqnum, window, output, len := 0, WINDOW_SIZE, [], MAX_PACKET_SIZE;
      new;
      StartBalanced();
      assert receiverBuffer[..] == Start().slots;
    }

    /** Buffers a packet that is not the expected one, if it is inside the window. */
    method Store(p: Packet)
      requires Valid()
      modifies this`seqnum, this`window, this`output, receiverBuffer
      ensures Valid() && Contents() == Buffer(old(Contents()), p)
    {
      StoreBalanced(Contents(), p, 0);
      if seqnum < p.seqnum < seqnum + window {
        ghost var start := Contents();
        var i := 0;
        while i < WINDOW_SIZE
          invariant 0 <= i <= WINDOW_SIZE && Contents() == start
          invariant StoreFrom(start, p, i) == StoreFrom(start, p, 0)
        {
          if Holds(receiverBuffer[i], p.seqnum) {
            break;
          }
          if receiverBuffer[i] == None {
            AllOccupied(start.slots[i := Some(p)]);
            OccupiedUpdate(start.slots, i, Some(p));
            receiverBuffer[i] := Some(p);
            window := window - 1;
            break;
          }
          i := i + 1;
        }
      }
    }

    /** The drain loop, with its index reset to 0 and then stepped after each write. */
    method Drain()
      requires Valid()
      modifies this`seqnum, this`window, this`output, receiverBuffer
      ensures Valid() && Contents() == DrainFrom(old(Contents()), 0)
    {
      ghost var start := Contents();
      var i := 0;
      while i < WINDOW_SIZE
        invariant 0 <= i <= WINDOW_SIZE && Valid()
        invariant DrainFrom(Contents(), i) == DrainFrom(start, 0)
        decreases Occupied(receiverBuffer[..]), WINDOW_SIZE - i
      {
        if Holds(receiverBuffer[i], seqnum) {
          ghost var r := Contents();
          OccupiedUpdate(r.slots, i, None);
          AllOccupied(r.slots);
          output := output + Payload(receiverBuffer[i].value);
          receiverBuffer[i] := None;
          window := window + 1;
          seqnum := IncSeqnum(seqnum);
          assert Contents() == Take(r, i);
          i := 0;
        }
        i := i + 1;
      }
    }

    /** One turn of the loop on an arrival: the new state and the acknowledgement. */
    method Handle(a: Arrival) returns (ack: Option<Packet>)
      requires Valid()
      modifies this`seqnum, this`window, this`output, receiverBuffer
      ensures Valid() && (Contents(), ack) == Receive(old(Contents()), a)
    {
      if a.Decoded? {
        if a.p.typ != PTYPE_DATA {
          return None;
        } else if a.p.seqnum != seqnum {
          Store(a.p);
        } else {
          seqnum := IncSeqnum(seqnum);
          output := output + Payload(a.p);
          Drain();
        }
      }
      ack := Some(AckOf(Contents()));
    }

    /** The same from the bytes in the receive buffer: decode, clear `len` bytes, handle, and
        perhaps reply, from when on 512 bytes are cleared. */
    method HandleDatagram(buffer: array<byte>, size: nat) returns (reply: Option<seq<byte>>)
      requires Valid() && buffer.Length == MAX_PACKET_SIZE && Readable(buffer[..], size)
      modifies this, receiverBuffer, buffer
      ensures Valid()
      ensures var (t, ack) := Receive(old(Contents()), ArrivalOf(old(buffer[..]), size));
              && Contents() == t
              && reply == (if ack == None then None else Some(Padded(ack.value, MAX_PAYLOAD_SIZE)))
      ensures buffer[..] == Cleared(old(buffer[..]), old(len))
      ensures len == if reply == None then old(len) else MAX_PAYLOAD_SIZE
    {
      ghost var was := buffer[..];
      var a := DecodeArrival(buffer, size);
      Clear(buffer, len);
      var ack := Handle(a);
      reply := None;
      if ack.Some? {
        assert buffer[..][..MAX_PAYLOAD_SIZE] == Zeros(MAX_PAYLOAD_SIZE);
        var datagram := Reply(buffer, ack.value);
        reply := Some(datagram);
        len := MAX_PAYLOAD_SIZE;
      }
    }

    /** Decoding into a fresh packet. */
    static method DecodeArrival(buffer: array<byte>, size: nat) returns (a: Arrival)
      requires Readable(buffer[..], size)
      ensures a == ArrivalOf(buffer[..], size)
    {
      var packet := new Pkt();
      var code := packet.Decode(buffer, size);
      a := if code == PktOk then Decoded(packet.Contents()) else Rejected;
    }

    static method NewAck(ack: Packet) returns (packet: Pkt)
      requires ack == Packet(ack.typ, false, ack.window, ack.seqnum, 0, 0, None)
      ensures fresh(packet) && packet.Contents() == ack
    {
      packet := new Pkt();
      packet.SetType(ack.typ);
      packet.SetWindow(ack.window);
      packet.SetSeqnum(ack.seqnum);
    }

    /** Encodes an acknowledgement into the cleared buffer, of which 512 bytes are sent, and
        clears them again. */
    static method Reply(buffer: array<byte>, ack: Packet) returns (datagram: seq<byte>)
      requires buffer.Length == MAX_PACKET_SIZE && buffer[..][..MAX_PAYLOAD_SIZE] == Zeros(MAX_PAYLOAD_SIZE)
      requires ack == Packet(ack.typ, false, ack.window, ack.seqnum, 0, 0, None)
      modifies buffer
      ensures datagram == Padded(ack, MAX_PAYLOAD_SIZE)
      ensures buffer[..] == old(buffer[..])
    {
      ghost var was := buffer[..];
      var packet := NewAck(ack);
      var n := packet.Encode(buffer);
      datagram := buffer[..MAX_PAYLOAD_SIZE];
      AckInZeros(Codec.Encode(ack), was, buffer[..]);
      Clear(buffer, MAX_PAYLOAD_SIZE);
    }
  }

  lemma AckInZeros(e: seq<byte>, was: seq<byte>, now: seq<byte>)
    requires |e| == 12 && |was| == MAX_PACKET_SIZE && was[..MAX_PAYLOAD_SIZE] == Zeros(MAX_PAYLOAD_SIZE)
    requires now == e + was[12..]
    ensures now[..MAX_PAYLOAD_SIZE] == e + Zeros(MAX_PAYLOAD_SIZE - 12)
    ensures Zeros(MAX_PAYLOAD_SIZE) + now[MAX_PAYLOAD_SIZE..] == was
  {
    assert forall k :: 12 <= k < MAX_PAYLOAD_SIZE ==> was[k] == was[..MAX_PAYLOAD_SIZE][k];
  }
}
