/** The wire format: what `pkt_encode` writes and what `pkt_decode` makes of the
    bytes it is given, as functions on byte sequences. */
module Codec {
  import opened Basics
  import opened Bytes
  import Crc32

  const PTYPE_DATA: uint2 := 1
  const PTYPE_ACK: uint2 := 2
  const PTYPE_NACK: uint2 := 3
  const MAX_PAYLOAD_SIZE := 512
  const MAX_PACKET_SIZE := 528

  /** The status codes the codec returns. */
  datatype Status = PktOk | EType | ETr | ELength | ECrc | ENoMem

  /** The value of a `struct pkt`; `payload` is `None` for a null pointer. */
  datatype Packet = Packet(
    typ: uint2, tr: bool, window: uint5, seqnum: uint8, length: uint16, timestamp: bv32, payload: Option<seq<byte>>)

  /** A payload pointer, when there is one, points to at least `length` bytes. */
  predicate Encodable(p: Packet) {
    p.payload.Some? ==> p.length <= |p.payload.value|
  }

  /** What `pkt_set_payload` establishes: the payload is exactly `length` bytes. */
  predicate Consistent(p: Packet) {
    p.payload.Some? ==> p.length == |p.payload.value|
  }

  /** What is wrong with the fields of a packet, the first rule broken deciding: tr only on
      DATA, a known type, and 1 to 512 bytes on DATA. */
  function FieldStatus(typ: uint2, tr: bool, length: uint16): Status {
    if tr && typ != PTYPE_DATA then ETr
    else if typ != PTYPE_DATA && typ != PTYPE_ACK && typ != PTYPE_NACK then EType
    else if typ == PTYPE_DATA && (length == 0 || length > MAX_PAYLOAD_SIZE) then ELength
    else PktOk
  }

  function Verdict(p: Packet): Status { FieldStatus(p.typ, p.tr, p.length) }

  predicate Acceptable(p: Packet) { Verdict(p) == PktOk }

  // ----- encoding -----

  function PackFlags(typ: byte, tr: bool, window: byte): byte {
    (typ << 6) | (if tr then 0x20 else 0) | window
  }

  function Flags(typ: uint2, tr: bool, window: uint5): byte {
    PackFlags(ToByte(typ), tr, ToByte(window))
  }

  /** The first eight bytes: bit fields, sequence number, big-endian length and the
      timestamp in host (little-endian) order. */
  function Header(p: Packet): (h: seq<byte>)
    ensures |h| == 8
  {
    [Flags(p.typ, p.tr, p.window), ToByte(p.seqnum), ToByte(p.length / 256), ToByte(p.length % 256)]
    + LittleEndian(p.timestamp)
  }

  function LittleEndian(t: bv32): (s: seq<byte>)
    ensures |s| == 4
  {
    [(t & 0xFF) as byte, ((t >> 8) & 0xFF) as byte, ((t >> 16) & 0xFF) as byte, ((t >> 24) & 0xFF) as byte]
  }

  /** `data` followed by its checksum. */
  function Sealed(data: seq<byte>): (s: seq<byte>)
    ensures |s| == |data| + 4 && data <= s
  {
    data + Crc32.BigEndian32(Crc32.Checksum(data))
  }

  function Body(p: Packet): seq<byte>
    requires Encodable(p)
  {
    if p.payload.None? then [] else Sealed(p.payload.value[..p.length])
  }

  function Encode(p: Packet): (s: seq<byte>)
    requires Encodable(p)
    ensures |s| == if p.payload.None? then 12 else 16 + p.length
  {
    Sealed(Header(p)) + Body(p)
  }

  // ----- decoding -----

  function TypeOf(flags: byte): uint2 {
    SmallBytes(flags);
    Value(flags >> 6)
  }

  predicate TrOf(flags: byte) { flags & 0x20 != 0 }

  function WindowOf(flags: byte): uint5 {
    SmallBytes(flags);
    Value(flags & 0x1F)
  }

  lemma SmallBytes(flags: byte)
    ensures Value(flags >> 6) < 4 && Value(flags & 0x1F) < 32
  {
    ByteBound(flags >> 6, 4);
    ByteBound(flags & 0x1F, 32);
    CountIsCast(4);
    CountIsCast(32);
  }

  function BigEndian16(hi: byte, lo: byte): uint16 { Value(hi) * 256 + Value(lo) }

  function LittleEndian32(a: byte, b: byte, c: byte, d: byte): bv32 {
    (a as bv32) | ((b as bv32) << 8) | ((c as bv32) << 16) | ((d as bv32) << 24)
  }

  function LengthOf(data: seq<byte>): uint16
    requires |data| >= 12
  {
    BigEndian16(data[2], data[3])
  }

  /** The checks on the first twelve bytes: the fields, then the checksum. */
  function HeaderStatus(data: seq<byte>): Status
    requires |data| >= 12
  {
    var status := FieldStatus(TypeOf(data[0]), TrOf(data[0]), LengthOf(data));
    if status == PktOk && data[8..12] != Crc32.BigEndian32(Crc32.Checksum(data[..8])) then ECrc else status
  }

  /** The decoder may be given `data` with the received size `len`: `data` holds every
      byte the decoder reads, namely the header and, when it goes on to the payload,
      the announced payload and its checksum. */
  predicate Readable(data: seq<byte>, len: nat) {
    && |data| >= 12
    && (len > 12 && HeaderStatus(data) == PktOk ==> 16 + LengthOf(data) <= |data|)
  }

  function PayloadOf(data: seq<byte>): seq<byte>
    requires |data| >= 12 && 16 + LengthOf(data) <= |data|
  {
    data[12..12 + LengthOf(data)]
  }

  predicate PayloadSealed(data: seq<byte>)
    requires |data| >= 12 && 16 + LengthOf(data) <= |data|
  {
    var end := 12 + LengthOf(data);
    data[end..end + 4] == Crc32.BigEndian32(Crc32.Checksum(PayloadOf(data)))
  }

  function DecodeStatus(data: seq<byte>, len: nat): Status
    requires Readable(data, len)
  {
    if HeaderStatus(data) != PktOk then HeaderStatus(data)
    else if len > 12 && !PayloadSealed(data) then ECrc
    else PktOk
  }

  /** The packet the decoder leaves behind, whatever status it returns. Until the header
      is accepted the tr bit reads 0; until the type is accepted the length field
      holds the two bytes in the wrong order. `held` is the payload held before. */
  function DecodedPacket(data: seq<byte>, len: nat, held: Option<seq<byte>>): Packet
    requires Readable(data, len)
  {
    var status := HeaderStatus(data);
    var length := if status == ETr || status == EType then BigEndian16(data[3], data[2]) else LengthOf(data);
    var payload := if status == PktOk && len > 12 then Some(PayloadOf(data)) else held;
    Packet(TypeOf(data[0]), status == PktOk && TrOf(data[0]), WindowOf(data[0]), Value(data[1]), length,
           LittleEndian32(data[4], data[5], data[6], data[7]), payload)
  }

  /** The decoder looks at nothing behind the bytes it may read. */
  lemma BufferFrame(d: seq<byte>, tail: seq<byte>, len: nat, held: Option<seq<byte>>)
    requires Readable(d, len)
    ensures Readable(d + tail, len)
    ensures DecodeStatus(d + tail, len) == DecodeStatus(d, len)
    ensures DecodedPacket(d + tail, len, held) == DecodedPacket(d, len, held)
  {
    HeaderFrame(d, tail);
    if HeaderStatus(d) == PktOk && len > 12 {
      PayloadFrame(d, tail);
    }
  }

  lemma PayloadFrame(d: seq<byte>, tail: seq<byte>)
    requires |d| >= 12 && 16 + LengthOf(d) <= |d|
    ensures LengthOf(d + tail) == LengthOf(d) && PayloadOf(d + tail) == PayloadOf(d)
    ensures PayloadSealed(d + tail) == PayloadSealed(d)
  {
    var end := 12 + LengthOf(d);
    assert (d + tail)[12..end] == d[12..end] && (d + tail)[end..end + 4] == d[end..end + 4];
  }

  lemma HeaderFrame(d: seq<byte>, tail: seq<byte>)
    requires |d| >= 12
    ensures HeaderStatus(d + tail) == HeaderStatus(d) && LengthOf(d + tail) == LengthOf(d)
  {
    assert (d + tail)[..8] == d[..8] && (d + tail)[8..12] == d[8..12];
  }

  // ----- the fields survive the header -----

  lemma PackedBits(typ: byte, tr: bool, window: byte)
    requires typ < 4 && window < 32
    ensures var f := PackFlags(typ, tr, window); f >> 6 == typ && TrOf(f) == tr && f & 0x1F == window
  {}

  lemma FlagsRoundTrip(typ: uint2, tr: bool, window: uint5)
    ensures var f := Flags(typ, tr, window); TypeOf(f) == typ && TrOf(f) == tr && WindowOf(f) == window
  {
    ToByteBound(typ, 4);
    ToByteBound(window, 32);
    ByteConstants();
    PackedBits(ToByte(typ), tr, ToByte(window));
    ValueOfToByte(typ);
    ValueOfToByte(window);
  }

  lemma ByteConstants()
    ensures ToByte(4) == 4 && ToByte(32) == 32
  {
    CountIsCast(4);
    CountIsCast(32);
    ToByteOfValue(4);
    ToByteOfValue(32);
  }

  lemma UnpackedBits(f: byte)
    ensures PackFlags(f >> 6, TrOf(f), f & 0x1F) == f
  {}

  lemma FlagsFromParts(f: byte)
    ensures Flags(TypeOf(f), TrOf(f), WindowOf(f)) == f
  {
    ToByteOfValue(f >> 6);
    ToByteOfValue(f & 0x1F);
    UnpackedBits(f);
  }

  lemma LengthRoundTrip(n: uint16)
    ensures BigEndian16(ToByte(n / 256), ToByte(n % 256)) == n
  {
    ValueOfToByte(n / 256);
    ValueOfToByte(n % 256);
  }

  lemma LengthFromParts(hi: byte, lo: byte)
    ensures var n := BigEndian16(hi, lo); ToByte(n / 256) == hi && ToByte(n % 256) == lo
  {
    ToByteOfValue(hi);
    ToByteOfValue(lo);
  }

  lemma TimestampRoundTrip(t: bv32)
    ensures var s := LittleEndian(t); LittleEndian32(s[0], s[1], s[2], s[3]) == t
  {}

  lemma TimestampFromParts(a: byte, b: byte, c: byte, d: byte)
    ensures LittleEndian(LittleEndian32(a, b, c, d)) == [a, b, c, d]
  {}

  lemma HeaderFlags(p: Packet, h: seq<byte>)
    requires h == Header(p)
    ensures TypeOf(h[0]) == p.typ && TrOf(h[0]) == p.tr && WindowOf(h[0]) == p.window && Value(h[1]) == p.seqnum
  {
    ValueOfToByte(p.seqnum);
    FlagsRoundTrip(p.typ, p.tr, p.window);
  }

  lemma HeaderLength(p: Packet, h: seq<byte>)
    requires h == Header(p)
    ensures BigEndian16(h[2], h[3]) == p.length
  {
    LengthRoundTrip(p.length);
  }

  lemma HeaderTimestamp(p: Packet, h: seq<byte>)
    requires h == Header(p)
    ensures LittleEndian32(h[4], h[5], h[6], h[7]) == p.timestamp
  {
    TimestampRoundTrip(p.timestamp);
  }

  /** Adjacent slices join. */
  lemma JoinSlices<T>(data: seq<T>, a: nat, b: nat, c: nat)
    requires a <= b <= c <= |data|
    ensures data[a..b] + data[b..c] == data[a..c]
  {}

  /** A stretch of `data` is `content` sealed exactly when it is `content` followed by
      the checksum of `content`. */
  lemma SealedSlice(data: seq<byte>, off: nat, content: seq<byte>)
    requires off + |content| + 4 <= |data|
    ensures data[off..off + |content| + 4] == Sealed(content) <==>
            && data[off..off + |content|] == content
            && data[off + |content|..off + |content| + 4] == Crc32.BigEndian32(Crc32.Checksum(content))
  {
    SlicePair(data, off, content, Crc32.BigEndian32(Crc32.Checksum(content)));
  }

  lemma SlicePair<T>(data: seq<T>, off: nat, a: seq<T>, b: seq<T>)
    requires off + |a| + |b| <= |data|
    ensures data[off..off + |a| + |b|] == a + b <==>
            data[off..off + |a|] == a && data[off + |a|..off + |a| + |b|] == b
  {
    var m, n := off + |a|, off + |a| + |b|;
    JoinSlices(data, off, m, n);
    if data[off..n] == a + b {
      assert data[off..m] == (a + b)[..|a|];
      assert data[m..n] == (a + b)[|a|..];
    }
  }

  /** What the decoder reads back from the header of an encoded packet. */
  lemma HeaderRoundTrip(p: Packet, data: seq<byte>)
    requires |data| >= 12 && data[..12] == Sealed(Header(p))
    ensures TypeOf(data[0]) == p.typ && TrOf(data[0]) == p.tr && WindowOf(data[0]) == p.window
    ensures Value(data[1]) == p.seqnum && LengthOf(data) == p.length
    ensures LittleEndian32(data[4], data[5], data[6], data[7]) == p.timestamp
    ensures HeaderStatus(data) == Verdict(p)
  {
    SealedSlice(data, 0, Header(p));
    var h := data[..8];
    HeaderFlags(p, h);
    HeaderLength(p, h);
    HeaderTimestamp(p, h);
    assert h[0] == data[0] && h[1] == data[1] && h[2] == data[2] && h[3] == data[3];
    assert h[4] == data[4] && h[5] == data[5] && h[6] == data[6] && h[7] == data[7];
  }

  /** With an accepted header, the bytes after it are a sealed payload exactly when
      the decoder's second checksum matches. */
  lemma PayloadSealedIff(data: seq<byte>)
    requires |data| >= 12 && 16 + LengthOf(data) <= |data|
    ensures PayloadSealed(data) <==> data[12..16 + LengthOf(data)] == Sealed(PayloadOf(data))
  {
    SealedSlice(data, 12, PayloadOf(data));
  }

  lemma BodyRoundTrip(p: Packet, data: seq<byte>)
    requires Consistent(p) && p.payload.Some?
    requires |data| >= 12 && LengthOf(data) == p.length
    requires 16 + p.length <= |data| && data[12..16 + p.length] == Sealed(p.payload.value)
    ensures PayloadOf(data) == p.payload.value && PayloadSealed(data)
  {
    SealedSlice(data, 12, p.payload.value);
  }

  // ----- main properties -----

  /** Round trip. Encoding a consistent packet and decoding the datagram, whatever
      bytes follow it in the buffer, answers the verdict on its fields, so it succeeds exactly
      for the acceptable packets, and then gives back every field and the payload. */
  lemma RoundTrip(p: Packet, tail: seq<byte>, held: Option<seq<byte>>)
    requires Consistent(p)
    ensures var d := Encode(p);
            && Readable(d + tail, |d|)
            && DecodeStatus(d + tail, |d|) == Verdict(p)
            && (Acceptable(p) ==>
                  DecodedPacket(d + tail, |d|, held) == p.(payload := if p.payload.None? then held else p.payload))
  {
    var d := Encode(p);
    var data := d + tail;
    assert data[..|d|] == d;
    SlicePair(data, 0, Sealed(Header(p)), Body(p));
    HeaderRoundTrip(p, data);
    if p.payload.Some? {
      assert p.payload.value[..p.length] == p.payload.value;
      BodyRoundTrip(p, data);
    }
  }

  // ----- what each code means, on the bytes -----

  lemma TypeBits(f: byte)
    ensures TypeOf(f) == 0 <==> f < 0x40
    ensures TypeOf(f) == 1 <==> 0x40 <= f < 0x80
    ensures TypeOf(f) == 2 <==> 0x80 <= f < 0xC0
    ensures TypeOf(f) == 3 <==> 0xC0 <= f
  {
    ShiftedBits(f);
    CountIsCast(0);
    CountIsCast(1);
    CountIsCast(2);
    CountIsCast(3);
  }

  lemma ShiftedBits(f: byte)
    ensures f >> 6 == 0 <==> f < 0x40
    ensures f >> 6 == 1 <==> 0x40 <= f < 0x80
    ensures f >> 6 == 2 <==> 0x80 <= f < 0xC0
    ensures f >> 6 == 3 <==> 0xC0 <= f
    ensures f >> 6 in {0, 1, 2, 3}
  {}

  /** The length field, most significant byte first. */
  function SizeField(data: seq<byte>): nat
    requires |data| >= 12
  {
    256 * Value(data[2]) + Value(data[3])
  }

  /** DATA with 1 to 512 bytes, or an acknowledgement of either kind without tr. */
  predicate FieldsInOrder(data: seq<byte>)
    requires |data| >= 12
  {
    if data[0] < 0x80 then 0x40 <= data[0] && 1 <= SizeField(data) <= 512 else data[0] & 0x20 == 0
  }

  predicate HeaderSealed(data: seq<byte>)
    requires |data| >= 12
  {
    data[8..12] == Crc32.BigEndian32(Crc32.Checksum(data[..8]))
  }

  lemma NoTypeBits(f: byte)
    ensures f < 0x20 <==> f < 0x40 && f & 0x20 == 0
  {}

  /** The codes for a header, by its bytes: tr on anything but DATA, neither type nor tr, a wrong
      size of DATA, and for fields in order a wrong checksum. */
  lemma HeaderCodes(data: seq<byte>)
    requires |data| >= 12
    ensures HeaderStatus(data) == ETr <==> data[0] & 0x20 != 0 && !(0x40 <= data[0] < 0x80)
    ensures HeaderStatus(data) == EType <==> data[0] < 0x20
    ensures HeaderStatus(data) == ELength <==> 0x40 <= data[0] < 0x80 && !(1 <= SizeField(data) <= 512)
    ensures HeaderStatus(data) == ECrc <==> FieldsInOrder(data) && !HeaderSealed(data)
    ensures HeaderStatus(data) == PktOk <==> FieldsInOrder(data) && HeaderSealed(data)
  {
    TypeBits(data[0]);
    NoTypeBits(data[0]);
  }

  /** And for a datagram: what comes after the header can only lead to the code for checksums. */
  lemma DecodeCodes(data: seq<byte>, len: nat)
    requires Readable(data, len)
    ensures var n := 12 + SizeField(data);
            var broken := HeaderStatus(data) == PktOk && len > 12
                          && data[n..n + 4] != Crc32.BigEndian32(Crc32.Checksum(data[12..n]));
            DecodeStatus(data, len) == if broken then ECrc else HeaderStatus(data)
  {}

  /** What is left of a packet that was encoded with fields that the decoder refuses: tr is
      lost, and, unless only the size was wrong, the length has its bytes the wrong way round. */
  lemma RefusedPacket(p: Packet, tail: seq<byte>, held: Option<seq<byte>>)
    requires Consistent(p)
    ensures var d := Encode(p); Readable(d + tail, |d|) && Refused(p, d + tail, |d|, held)
  {
    var d := Encode(p);
    var data := d + tail;
    RoundTrip(p, tail, held);
    assert data[..|d|] == d;
    SlicePair(data, 0, Sealed(Header(p)), Body(p));
    RefusedHeader(p, data, |d|, held);
  }

  ghost predicate Refused(p: Packet, data: seq<byte>, len: nat, held: Option<seq<byte>>)
    requires Readable(data, len)
  {
    var left, code := DecodedPacket(data, len, held), DecodeStatus(data, len);
    && (p.typ == 1 && !(1 <= p.length <= 512) ==>
          code == ELength && left == p.(tr := false, payload := held))
    && (p.typ != 1 && p.tr ==>
          code == ETr && left == p.(tr := false, payload := held, length := Swapped(p.length)))
    && (p.typ == 0 && !p.tr ==>
          code == EType && left == p.(payload := held, length := Swapped(p.length)))
  }

  lemma RefusedHeader(p: Packet, data: seq<byte>, len: nat, held: Option<seq<byte>>)
    requires Readable(data, len) && data[..12] == Sealed(Header(p))
    ensures Refused(p, data, len, held)
  {
    HeaderRoundTrip(p, data);
    LengthBytes(p, data);
    if HeaderStatus(data) != PktOk {
      RefusedLeft(data, len, held);
    }
  }

  lemma RefusedLeft(data: seq<byte>, len: nat, held: Option<seq<byte>>)
    requires Readable(data, len) && HeaderStatus(data) != PktOk
    ensures DecodeStatus(data, len) == HeaderStatus(data)
    ensures DecodedPacket(data, len, held) ==
            Packet(TypeOf(data[0]), false, WindowOf(data[0]), Value(data[1]),
                   if HeaderStatus(data) in {ETr, EType} then BigEndian16(data[3], data[2]) else LengthOf(data),
                   LittleEndian32(data[4], data[5], data[6], data[7]), held)
  {}

  function Swapped(n: uint16): uint16 { 256 * (n % 256) + n / 256 }

  lemma LengthBytes(p: Packet, data: seq<byte>)
    requires |data| >= 12 && data[..12] == Sealed(Header(p))
    ensures BigEndian16(data[3], data[2]) == Swapped(p.length)
  {
    var h := data[..8];
    assert h == data[..12][..8] == Header(p);
    assert h[2] == data[2] && h[3] == data[3];
    ValueOfToByte(p.length / 256);
    ValueOfToByte(p.length % 256);
  }

  /** The datagram that decoding accepted, up to where the decoder looked. */
  function Examined(data: seq<byte>, len: nat): seq<byte>
    requires Readable(data, len) && DecodeStatus(data, len) == PktOk
  {
    if len <= 12 then data[..12] else data[..16 + LengthOf(data)]
  }

  lemma HeaderFromParts(data: seq<byte>, p: Packet)
    requires |data| >= 12
    requires p.typ == TypeOf(data[0]) && p.tr == TrOf(data[0]) && p.window == WindowOf(data[0])
    requires p.seqnum == Value(data[1]) && p.length == LengthOf(data)
    requires p.timestamp == LittleEndian32(data[4], data[5], data[6], data[7])
    ensures Header(p) == data[..8]
  {
    FlagsFromParts(data[0]);
    ToByteOfValue(data[1]);
    LengthFromParts(data[2], data[3]);
    TimestampFromParts(data[4], data[5], data[6], data[7]);
  }

  /** Canonical form. Re-encoding an accepted datagram into a fresh packet reproduces
      every byte the decoder examined. */
  lemma Reencode(data: seq<byte>, len: nat)
    requires Readable(data, len) && DecodeStatus(data, len) == PktOk
    ensures var p := DecodedPacket(data, len, None);
            Consistent(p) && Acceptable(p) && Encode(p) == Examined(data, len)
  {
    var p := DecodedPacket(data, len, None);
    HeaderFromParts(data, p);
    SealedSlice(data, 0, Header(p));
    if len > 12 {
      var n: nat := LengthOf(data);
      assert PayloadOf(data)[..n] == PayloadOf(data);
      PayloadSealedIff(data);
      JoinSlices(data, 0, 12, 16 + n);
    }
  }

  /** Two datagrams accepted on the same path with equal decoded packets agree on every
      examined byte: they can differ only in trailing padding. */
  lemma AcceptedFieldsDetermineBytes(d1: seq<byte>, len1: nat, d2: seq<byte>, len2: nat)
    requires Readable(d1, len1) && DecodeStatus(d1, len1) == PktOk
    requires Readable(d2, len2) && DecodeStatus(d2, len2) == PktOk
    requires DecodedPacket(d1, len1, None) == DecodedPacket(d2, len2, None)
    ensures Examined(d1, len1) == Examined(d2, len2)
  {
    Reencode(d1, len1);
    Reencode(d2, len2);
  }
}
