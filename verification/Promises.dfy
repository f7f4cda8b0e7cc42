/** Three things packet_interface.h promises of the codec, and exactly when its code keeps them. */
module Promises {
  import opened Basics
  import opened Bytes
  import opened Codec
  import Crc32

  // ----- "the checksum of the header is taken with tr at 0" -----

  function WithoutTr(p: Packet): Packet { p.(tr := false) }

  lemma HeaderWithoutTr(p: Packet)
    ensures Header(WithoutTr(p)) == Header(p)[0 := Flags(p.typ, false, p.window)]
  {
    FirstOfBoth([Flags(p.typ, p.tr, p.window), ToByte(p.seqnum), ToByte(p.length / 256), ToByte(p.length % 256)],
                LittleEndian(p.timestamp), Flags(p.typ, false, p.window));
  }

  lemma FirstOfBoth<T>(s: seq<T>, t: seq<T>, x: T)
    requires s != []
    ensures (s + t)[0 := x] == s[0 := x] + t
  {}

  lemma FlagsWithoutTr(typ: uint2, window: uint5)
    ensures Flags(typ, true, window) != Flags(typ, false, window)
  {
    FlagsRoundTrip(typ, true, window);
    FlagsRoundTrip(typ, false, window);
    TrDecides(Flags(typ, true, window), Flags(typ, false, window));
  }

  lemma TrDecides(f: byte, g: byte)
    requires TrOf(f) && !TrOf(g)
    ensures f != g
  {}

  /** The checksum the code takes is the promised one exactly when tr is 0. */
  lemma HeaderChecksumIff(p: Packet)
    ensures Crc32.Checksum(Header(p)) == Crc32.Checksum(Header(WithoutTr(p))) <==> !p.tr
  {
    if p.tr {
      HeaderWithoutTr(p);
      FlagsWithoutTr(p.typ, p.window);
      Crc32.OneByteChangesChecksum(Header(p), 0, Flags(p.typ, false, p.window));
    }
  }

  /** So a header sealed as promised is accepted exactly when its fields are acceptable and tr is 0. */
  lemma PromisedHeaderIff(p: Packet, data: seq<byte>)
    requires |data| >= 12 && data[..8] == Header(p)
    requires data[8..12] == Crc32.BigEndian32(Crc32.Checksum(Header(WithoutTr(p))))
    ensures HeaderStatus(data) == PktOk <==> Acceptable(p) && !p.tr
  {
    HeaderChecksumIff(p);
    FieldsOf(p, data);
    if data[8..12] == Crc32.BigEndian32(Crc32.Checksum(data[..8])) {
      Crc32.BytesDetermineWord(Crc32.Checksum(Header(p)), Crc32.Checksum(Header(WithoutTr(p))));
    }
  }

  lemma FieldsOf(p: Packet, data: seq<byte>)
    requires |data| >= 12 && data[..8] == Header(p)
    ensures TypeOf(data[0]) == p.typ && TrOf(data[0]) == p.tr && LengthOf(data) == p.length
  {
    var h := data[..8];
    HeaderFlags(p, h);
    HeaderLength(p, h);
    assert h[0] == data[0] && h[2] == data[2] && h[3] == data[3];
  }

  // ----- "length and tr agree with the number of bytes received" -----

  /** The number of bytes a datagram with these fields has. */
  function AnnouncedSize(data: seq<byte>): nat
    requires |data| >= 12
  {
    if TrOf(data[0]) || LengthOf(data) == 0 then 12 else 16 + LengthOf(data)
  }

  /** The decoder asks of the size only whether it is more than 12. */
  lemma SizeIgnored(data: seq<byte>, len: nat, other: nat, held: Option<seq<byte>>)
    requires Readable(data, len) && (len > 12 <==> other > 12)
    ensures Readable(data, other) && DecodeStatus(data, other) == DecodeStatus(data, len)
    ensures DecodedPacket(data, other, held) == DecodedPacket(data, len, held)
  {}

  /** So what it accepts has the announced size for every size only if it accepts nothing: for
      no bytes whose header is in order does the size matter. */
  lemma SizePromiseIff(data: seq<byte>)
    requires |data| >= 12
    ensures (forall len: nat :: Readable(data, len) && DecodeStatus(data, len) == PktOk ==> len == AnnouncedSize(data))
            <==> HeaderStatus(data) != PktOk
  {
    if HeaderStatus(data) == PktOk {
      assert Readable(data, 11) && DecodeStatus(data, 11) == PktOk;
      assert AnnouncedSize(data) != 11;
    }
  }

  /** A DATA header alone, announcing up to 512 bytes that are not there, is accepted. */
  lemma BareHeaderAccepted(p: Packet)
    requires Acceptable(p) && p.typ == PTYPE_DATA && p.payload == None
    ensures var d := Encode(p); |d| == 12 < 16 + LengthOf(d) && DecodeStatus(d, |d|) == PktOk
  {
    var d := Encode(p);
    RoundTrip(p, [], None);
    assert d + [] == d && d[..12] == Sealed(Header(p));
    HeaderRoundTrip(p, d);
  }

  /** A whole datagram is accepted under every size above 12, which agrees with its length
      field only when it is the number of bytes encoded. */
  lemma EverySizeAccepted(p: Packet, tail: seq<byte>, len: nat)
    requires Consistent(p) && Acceptable(p) && p.payload.Some? && len > 12
    ensures var data := Encode(p) + tail;
            && Readable(data, len) && DecodeStatus(data, len) == PktOk && DecodedPacket(data, len, None) == p
            && (len == 16 + LengthOf(data) <==> len == |Encode(p)|)
  {
    RoundTrip(p, tail, None);
    SizeIgnored(Encode(p) + tail, |Encode(p)|, len, None);
    EncodedLength(p, tail);
  }

  lemma EncodedLength(p: Packet, tail: seq<byte>)
    requires Encodable(p)
    ensures LengthOf(Encode(p) + tail) == p.length
  {
    var data := Encode(p) + tail;
    HeaderLength(p, Header(p));
    assert data[2] == Header(p)[2] && data[3] == Header(p)[3];
  }

  // ----- "E_NOMEM if the buffer is too small" -----

  /** Without the test, the 528 bytes both loops reserve suffice exactly for these packets. */
  lemma BufferSufficesIff(p: Packet)
    requires Encodable(p)
    ensures |Encode(p)| <= MAX_PACKET_SIZE <==> p.payload == None || p.length <= MAX_PAYLOAD_SIZE
  {}

  /** The test of the other encoder, capacity at least 16 plus the length, is right exactly
      when there is a payload or the capacity is not between 12 and that sum. */
  lemma CapacityTestIff(p: Packet, capacity: nat)
    requires Encodable(p)
    ensures (16 + p.length <= capacity <==> |Encode(p)| <= capacity) <==>
            p.payload.Some? || capacity < 12 || 16 + p.length <= capacity
  {}
}
