/** What the codec makes of datagrams that the link cut to its buffer, and perhaps damaged
    by the inversion of one byte, in the receiver's buffer. */
module Truncation {
  import opened Basics
  import opened Codec
  import opened Corruption
  import opened CrcErrors
  import Crc32
  import CrcEchoes

  /** The link simulator reads at most this many bytes of a datagram. */
  const MAX_PKT_LEN := 524

  /** What is left of a datagram of which at most `limit` bytes are read. */
  function Kept(e: seq<byte>, limit: nat): seq<byte> { if |e| <= limit then e else e[..limit] }

  predicate ZeroFrom(s: seq<byte>, from: nat) {
    forall i :: from <= i < |s| ==> s[i] == 0
  }

  /** The receiver's buffer after `d` was copied into it, when no longer datagram than one of
      `limit` bytes ever was: behind `d` there may be bytes of an earlier one. */
  predicate InBuffer(d: seq<byte>, limit: nat, data: seq<byte>) {
    |data| == MAX_PACKET_SIZE && d <= data && ZeroFrom(data, limit)
  }

  /** The four bytes behind the payload `content` when it arrives cut: the checksum, as far
      as it was not lost, and zeros. */
  function SealLeft(content: seq<byte>, limit: nat): (s: seq<byte>)
    ensures |s| == 4
  {
    var seal := Crc32.BigEndian32(Crc32.Checksum(content));
    seq(4, k requires 0 <= k < 4 => if 12 + |content| + k < limit then seal[k] else 0)
  }

  /** What is left of the checksum of `content` is the checksum of `q`. */
  predicate Passes(content: seq<byte>, q: seq<byte>, limit: nat) {
    Crc32.BigEndian32(Crc32.Checksum(q)) == SealLeft(content, limit)
  }

  /** The datagrams of this section: DATA with a payload that no cut reaches. */
  predicate Cuttable(p: Packet, limit: nat) {
    && Consistent(p) && Acceptable(p) && p.typ == PTYPE_DATA && p.payload.Some?
    && 16 + p.length <= MAX_PACKET_SIZE && 12 + p.length <= limit <= MAX_PACKET_SIZE
  }

  /** With the header intact, acceptance is up to the payload and the four bytes after it. */
  lemma PayloadInPlace(p: Packet, q: seq<byte>, w: seq<byte>, data: seq<byte>, len: nat)
    requires Acceptable(p) && |q| == p.length && |w| == 4 && len > 12
    requires |data| >= 16 + p.length && data[..12] == Sealed(Header(p))
    requires data[12..12 + p.length] == q && data[12 + p.length..16 + p.length] == w
    ensures Readable(data, len)
    ensures DecodeStatus(data, len) == PktOk <==> w == Crc32.BigEndian32(Crc32.Checksum(q))
    ensures DecodedPacket(data, len, None) == p.(payload := Some(q))
  {
    HeaderRoundTrip(p, data);
    assert PayloadOf(data) == q;
  }

  lemma BufferBytes(e: seq<byte>, limit: nat, data: seq<byte>)
    requires |e| <= MAX_PACKET_SIZE && InBuffer(Kept(e, limit), limit, data)
    ensures forall i :: 0 <= i < |e| ==> data[i] == if i < limit then e[i] else 0
  {
    var kept := Kept(e, limit);
    assert forall i :: 0 <= i < |kept| ==> data[i] == kept[i] == e[i];
  }

  lemma SealLeftInPlace(e: seq<byte>, content: seq<byte>, limit: nat, data: seq<byte>)
    requires |e| == 16 + |content| <= MAX_PACKET_SIZE && InBuffer(Kept(e, limit), limit, data)
    requires e[12 + |content|..16 + |content|] == Crc32.BigEndian32(Crc32.Checksum(content))
    ensures data[12 + |content|..16 + |content|] == SealLeft(content, limit)
  {
    BufferBytes(e, limit, data);
    var n := |content|;
    var seal := e[12 + n..16 + n];
    assert forall k :: 0 <= k < 4 ==> seal[k] == e[12 + n + k];
  }

  /** The parts of a cut datagram in the buffer. */
  lemma CutParts(p: Packet, limit: nat, data: seq<byte>)
    requires Cuttable(p, limit) && InBuffer(Kept(Encode(p), limit), limit, data)
    ensures data[..12] == Sealed(Header(p)) && data[12..12 + p.length] == p.payload.value
    ensures data[12 + p.length..16 + p.length] == SealLeft(p.payload.value, limit)
  {
    var e, n := Encode(p), p.length;
    EncodedPrefix(p, e);
    SealedSlice(e, 12, p.payload.value);
    SealLeftInPlace(e, p.payload.value, limit, data);
    BufferBytes(e, limit, data);
    assert data[..12] == e[..12] && data[12..12 + n] == e[12..12 + n];
  }

  lemma LostBytes(p: Packet, limit: nat)
    requires Cuttable(p, limit)
    ensures Passes(p.payload.value, p.payload.value, limit) <==> ZeroFrom(Encode(p), limit)
  {
    var e, n, content := Encode(p), p.length, p.payload.value;
    EncodedPrefix(p, e);
    SealedSlice(e, 12, content);
    var seal, left := Crc32.BigEndian32(Crc32.Checksum(content)), SealLeft(content, limit);
    assert seal == e[12 + n..16 + n];
    assert forall k :: 0 <= k < 4 ==> seal[k] == e[12 + n + k];
    if seal == left {
      forall i | limit <= i < |e| ensures e[i] == 0 {
        assert left[i - 12 - n] == 0;
      }
    }
  }

  /** A DATA datagram cut behind its payload (the link's 524-byte buffer against the 528
      bytes of a full packet) is accepted exactly when every checksum byte that the
      cut removed was 0. */
  lemma TruncatedDatagram(p: Packet, limit: nat, data: seq<byte>)
    requires Cuttable(p, limit) && InBuffer(Kept(Encode(p), limit), limit, data)
    ensures var len := |Kept(Encode(p), limit)|;
            && Readable(data, len)
            && (DecodeStatus(data, len) == PktOk <==> ZeroFrom(Encode(p), limit))
            && DecodedPacket(data, len, None) == p
  {
    CutParts(p, limit, data);
    LostBytes(p, limit);
    PayloadInPlace(p, p.payload.value, SealLeft(p.payload.value, limit), data, |Kept(Encode(p), limit)|);
  }

  /** The buffer with the inverted byte put right again. */
  lemma PutRight(e: seq<byte>, limit: nat, i: nat, data: seq<byte>)
    requires i < |Kept(e, limit)| && limit <= MAX_PACKET_SIZE && InBuffer(Inverted(Kept(e, limit), i), limit, data)
    ensures |data| == MAX_PACKET_SIZE && InBuffer(Kept(e, limit), limit, data[i := e[i]])
    ensures data == data[i := e[i]][i := !e[i]]
  {
    var kept, was := Kept(e, limit), data[i := e[i]];
    assert forall k :: 0 <= k < |kept| ==> data[k] == Inverted(kept, i)[k];
    assert kept == was[..|kept|];
  }

  /** A datagram that was cut and then damaged, inverted byte by inverted byte: it is rejected
      if the byte is in the header or in what is left of the checksum, and otherwise
      accepted exactly when the damaged payload has what is left as its checksum. */
  lemma CutAndInverted(p: Packet, limit: nat, i: nat, data: seq<byte>)
    requires Cuttable(p, limit) && i < |Kept(Encode(p), limit)|
    requires InBuffer(Inverted(Kept(Encode(p), limit), i), limit, data)
    ensures var len := |Kept(Encode(p), limit)|;
            && Readable(data, len)
            && (i < 12 || i >= 12 + p.length ==> DecodeStatus(data, len) != PktOk)
            && (12 <= i < 12 + p.length ==>
                  var q := Inverted(p.payload.value, i - 12);
                  && (DecodeStatus(data, len) == PktOk <==> Passes(p.payload.value, q, limit))
                  && DecodedPacket(data, len, None) == p.(payload := Some(q)))
  {
    var e, n, content := Encode(p), p.length, p.payload.value;
    var len, was := |Kept(e, limit)|, data[i := e[i]];
    PutRight(e, limit, i, data);
    CutParts(p, limit, was);
    if i < 12 {
      HeaderDamageRejected(p, was, i, !e[i]);
    } else if i < 12 + n {
      PayloadInverted(p, limit, i, was, data, len);
    } else {
      SealInverted(p, limit, i, was, data, len);
    }
  }

  /** Header, payload and checksum after the inversion of one byte of the payload, and of one
      behind it. */
  lemma PayloadByteInverted(was: seq<byte>, n: nat, i: nat)
    requires 12 <= i < 12 + n && 16 + n <= |was|
    ensures var data := Inverted(was, i);
            && data[..12] == was[..12] && data[12..12 + n] == Inverted(was[12..12 + n], i - 12)
            && data[12 + n..16 + n] == was[12 + n..16 + n]
  {}

  lemma SealByteInverted(was: seq<byte>, n: nat, i: nat)
    requires 12 + n <= i < 16 + n <= |was|
    ensures var data := Inverted(was, i);
            && data[..12] == was[..12] && data[12..12 + n] == was[12..12 + n]
            && data[12 + n..16 + n] == Inverted(was[12 + n..16 + n], i - 12 - n)
  {}

  lemma PayloadInverted(p: Packet, limit: nat, i: nat, was: seq<byte>, data: seq<byte>, len: nat)
    requires Cuttable(p, limit) && 12 <= i < 12 + p.length && len > 12
    requires |was| == MAX_PACKET_SIZE && was[..12] == Sealed(Header(p)) && was[12..12 + p.length] == p.payload.value
    requires was[12 + p.length..16 + p.length] == SealLeft(p.payload.value, limit) && data == Inverted(was, i)
    ensures Readable(data, len)
    ensures var q := Inverted(p.payload.value, i - 12);
            && (DecodeStatus(data, len) == PktOk <==> Passes(p.payload.value, q, limit))
            && DecodedPacket(data, len, None) == p.(payload := Some(q))
  {
    PayloadByteInverted(was, p.length, i);
    PayloadInPlace(p, Inverted(p.payload.value, i - 12), SealLeft(p.payload.value, limit), data, len);
  }

  lemma SealInverted(p: Packet, limit: nat, i: nat, was: seq<byte>, data: seq<byte>, len: nat)
    requires Cuttable(p, limit) && 12 + p.length <= i < 16 + p.length && i < limit && len > 12
    requires |was| == MAX_PACKET_SIZE && was[..12] == Sealed(Header(p)) && was[12..12 + p.length] == p.payload.value
    requires was[12 + p.length..16 + p.length] == SealLeft(p.payload.value, limit) && data == Inverted(was, i)
    ensures Readable(data, len) && DecodeStatus(data, len) != PktOk
  {
    var left, k := SealLeft(p.payload.value, limit), i - 12 - p.length;
    SealByteInverted(was, p.length, i);
    PayloadInPlace(p, p.payload.value, Inverted(left, k), data, len);
    InvertedDiffers(left, k, Crc32.BigEndian32(Crc32.Checksum(p.payload.value)));
  }

  // ----- which payloads survive the cut -----

  /** What is left of the checksum of `content`, filled up with zeros, is its checksum. */
  predicate Survives(content: seq<byte>) {
    Passes(content, content, MAX_PKT_LEN)
  }

  /** The cut loses the checksum from byte 512 - |content| on, four bytes at most. */
  lemma SurvivesIff(content: seq<byte>)
    requires |content| <= MAX_PAYLOAD_SIZE
    ensures Survives(content) <==> ZeroFrom(Crc32.BigEndian32(Crc32.Checksum(content)), 512 - |content|)
  {
    var seal, left := Crc32.BigEndian32(Crc32.Checksum(content)), SealLeft(content, MAX_PKT_LEN);
    assert forall k :: 0 <= k < 4 ==> left[k] == if k < 512 - |content| then seal[k] else 0;
    assert seal == left <==> forall k :: 0 <= k < 4 ==> seal[k] == left[k];
  }

  /** Of two full payloads that differ in one byte, at most one survives. */
  lemma OneOfTwoLost(content: seq<byte>, i: nat, b: byte)
    requires i < |content| == MAX_PAYLOAD_SIZE && content[i] != b
    ensures !Survives(content) || !Survives(content[i := b])
  {
    assert SealLeft(content, MAX_PKT_LEN) == [0, 0, 0, 0] == SealLeft(content[i := b], MAX_PKT_LEN);
    Crc32.OneByteChangesChecksum(content, i, b);
    if Survives(content) && Survives(content[i := b]) {
      Crc32.BytesDetermineWord(Crc32.Checksum(content), Crc32.Checksum(content[i := b]));
    }
  }

  // ----- which payloads can be taken for another -----

  /** Some single inversion turns `content` into a payload that passes for it over the link. */
  predicate Confusable(content: seq<byte>) {
    exists j :: 0 <= j < |content| && Passes(content, Inverted(content, j), MAX_PKT_LEN)
  }

  lemma TopByteTells(c: bv32, x: bv32, v: bv32)
    requires v == Xor(c, x) && x >= 0x100_0000
    ensures Crc32.BigEndian32(v)[..1] != Crc32.BigEndian32(c)[..1]
  {
    var a, b := Crc32.BigEndian32(v), Crc32.BigEndian32(c);
    assert a[..1][0] == a[0] && b[..1][0] == b[0];
  }

  lemma TwoBytesTell(c: bv32, x: bv32, v: bv32)
    requires v == Xor(c, x) && x >= 0x1_0000
    ensures Crc32.BigEndian32(v)[..2] != Crc32.BigEndian32(c)[..2]
  {
    var a, b := Crc32.BigEndian32(v), Crc32.BigEndian32(c);
    assert a[..2][0] == a[0] && b[..2][0] == b[0] && a[..2][1] == a[1] && b[..2][1] == b[1];
  }

  /** The first two checksum bytes tell a payload of at most 510 bytes from the damaged one. */
  lemma ShortNotConfusable(content: seq<byte>, j: nat)
    requires j < |content| <= 510
    ensures !Passes(content, Inverted(content, j), MAX_PKT_LEN)
  {
    var n := |content| - 1 - j;
    InversionDifference(content, j);
    CrcEchoes.EchoTopByte(n);
    TwoBytesTell(Crc32.Checksum(content), Echo(n), Crc32.Checksum(Inverted(content, j)));
    TwoBytesLeft(content);
  }

  lemma TwoBytesLeft(content: seq<byte>)
    requires |content| <= 510
    ensures SealLeft(content, MAX_PKT_LEN)[..2] == Crc32.BigEndian32(Crc32.Checksum(content))[..2]
  {}

  const MARK: seq<byte> := [0xCC, 0x77, 0x18]

  function LastBytes(c: bv32): seq<byte> { Crc32.BigEndian32(c)[1..] }

  function TopByteOnly(c: bv32): seq<byte> { Crc32.BigEndian32(c)[..1] + [0, 0, 0] }

  lemma LastBytesZero(c: bv32, x: bv32, v: bv32)
    requires v == Xor(c, x) && x == 0x00CC_7718
    ensures Crc32.BigEndian32(v) == TopByteOnly(c) <==> LastBytes(c) == MARK
  {
    var a, b := Crc32.BigEndian32(v), Crc32.BigEndian32(c);
    assert TopByteOnly(c) == [b[0], 0, 0, 0];
    assert a == [b[0], 0, 0, 0] <==> a[0] == b[0] && a[1] == 0 && a[2] == 0 && a[3] == 0;
    assert LastBytes(c) == [b[1], b[2], b[3]];
  }

  lemma OneByteLeft(content: seq<byte>)
    requires |content| == 511
    ensures SealLeft(content, MAX_PKT_LEN) == TopByteOnly(Crc32.Checksum(content))
  {}

  lemma TopByteLeft(content: seq<byte>)
    requires |content| == 511
    ensures SealLeft(content, MAX_PKT_LEN)[..1] == Crc32.BigEndian32(Crc32.Checksum(content))[..1]
  {}

  lemma Confusable511At108(content: seq<byte>)
    requires |content| == 511
    ensures Passes(content, Inverted(content, 108), MAX_PKT_LEN) <==> LastBytes(Crc32.Checksum(content)) == MARK
  {
    InversionDifference(content, 108);
    CrcEchoes.EchoTopByte(402);
    OneByteLeft(content);
    LastBytesZero(Crc32.Checksum(content), Echo(402), Crc32.Checksum(Inverted(content, 108)));
  }

  lemma Confusable511Elsewhere(content: seq<byte>, j: nat)
    requires j < |content| == 511 && j != 108
    ensures !Passes(content, Inverted(content, j), MAX_PKT_LEN)
  {
    var c, x, v := Crc32.Checksum(content), Echo(510 - j), Crc32.Checksum(Inverted(content, j));
    InversionDifference(content, j);
    CrcEchoes.EchoTopByte(510 - j);
    TopByteLeft(content);
    TopByteTells(c, x, v);
  }

  /** With 511 bytes a single inversion passes at one place only, for one checksum in 2^24. */
  lemma Confusable511(content: seq<byte>, j: nat)
    requires j < |content| == 511
    ensures Passes(content, Inverted(content, j), MAX_PKT_LEN) <==>
            j == 108 && LastBytes(Crc32.Checksum(content)) == MARK
  {
    if j == 108 {
      Confusable511At108(content);
    } else {
      Confusable511Elsewhere(content, j);
    }
  }

  const NOTHING: seq<byte> := [0, 0, 0, 0]

  lemma SameCancels(c: bv32, v: bv32)
    requires v == Xor(c, c)
    ensures Crc32.BigEndian32(v) == NOTHING
  {}

  lemma DistinctLeaves(c: bv32, x: bv32, v: bv32)
    requires v == Xor(c, x) && c != x
    ensures Crc32.BigEndian32(v) != NOTHING
  {
    var b := Crc32.BigEndian32(v);
    assert b == NOTHING <==> b[0] == 0 && b[1] == 0 && b[2] == 0 && b[3] == 0;
  }

  lemma NothingLeft(content: seq<byte>)
    requires |content| == 512
    ensures SealLeft(content, MAX_PKT_LEN) == NOTHING
  {}

  lemma Confusable512(content: seq<byte>, j: nat)
    requires j < |content| == 512
    ensures Passes(content, Inverted(content, j), MAX_PKT_LEN) <==> Crc32.Checksum(content) == Echo(511 - j)
  {
    var c, x, v := Crc32.Checksum(content), Echo(511 - j), Crc32.Checksum(Inverted(content, j));
    InversionDifference(content, j);
    NothingLeft(content);
    if c == x {
      SameCancels(c, v);
    } else {
      DistinctLeaves(c, x, v);
    }
  }

  /** Exactly which payloads can be taken for another one after a cut and an inversion. */
  lemma ConfusableIff(content: seq<byte>)
    requires |content| <= MAX_PAYLOAD_SIZE
    ensures Confusable(content) <==>
            || (|content| == 511 && LastBytes(Crc32.Checksum(content)) == MARK)
            || (|content| == 512 && exists n :: 0 <= n < 512 && Crc32.Checksum(content) == Echo(n))
  {
    if |content| <= 510 {
      forall j | 0 <= j < |content| ensures !Passes(content, Inverted(content, j), MAX_PKT_LEN) {
        ShortNotConfusable(content, j);
      }
    } else if |content| == 511 {
      forall j | 0 <= j < 511
        ensures Passes(content, Inverted(content, j), MAX_PKT_LEN) <==>
                j == 108 && LastBytes(Crc32.Checksum(content)) == MARK
      {
        Confusable511(content, j);
      }
      assert Confusable(content) <== Passes(content, Inverted(content, 108), MAX_PKT_LEN);
    } else {
      forall j | 0 <= j < 512
        ensures Passes(content, Inverted(content, j), MAX_PKT_LEN) <==> Crc32.Checksum(content) == Echo(511 - j)
      {
        Confusable512(content, j);
      }
      if n :| 0 <= n < 512 && Crc32.Checksum(content) == Echo(n) {
        assert Passes(content, Inverted(content, 511 - n), MAX_PKT_LEN);
      }
    }
  }

  // ----- a payload of 511 bytes that is taken for another -----

  const FIRST: seq<byte> := [0xFF, 0xFF, 0xFF, 0xFF]
  const LAST: seq<byte> := [0x62, 0xF5, 0x26, 0x92]

  /** 511 bytes with checksum 0: the first four bring the register to 0, zeros leave it there
      and the last four bring it back to its start. */
  function Wrong(): (s: seq<byte>)
    ensures |s| == 511
  {
    FIRST + Zeros(503) + LAST
  }

  /** The same with byte 108 inverted. */
  function Right(): seq<byte> { Inverted(Wrong(), 108) }

  lemma ZeroMix()
    ensures CrcEchoes.EightSteps(Crc32.Mix(0, 0)) == 0
  {}

  lemma {:induction false} ZerosKeepZero(n: nat)
    ensures Crc32.Update(0, Zeros(n)) == 0
  {
    if n > 0 {
      ZeroMix();
      CrcEchoes.CarryIsEightSteps(Crc32.Mix(0, 0));
      assert Zeros(n)[1..] == Zeros(n - 1);
      ZerosKeepZero(n - 1);
    }
  }

  /** The first four bytes bring the register to 0, zeros leave it there. */
  lemma ChecksumByLast(n: nat, last: seq<byte>, c: bv32)
    requires |last| == 4 && CrcEchoes.Leads(0, last, 0, 4, c)
    ensures Crc32.Checksum(FIRST + Zeros(n) + last) == Crc32.Final(c)
  {
    CrcEchoes.LeadsUpdates(0xFFFF_FFFF, FIRST, 0, 4, 0);
    CrcEchoes.LeadsUpdates(0, last, 0, 4, c);
    assert FIRST[0..0 + 4] == FIRST && last[0..0 + 4] == last;
    ZerosKeepZero(n);
    Crc32.FoldAppend(Crc32.ByteStep, 0xFFFF_FFFF, FIRST, Zeros(n));
    Crc32.FoldAppend(Crc32.ByteStep, 0xFFFF_FFFF, FIRST + Zeros(n), last);
  }

  lemma WrongChecksum()
    ensures Crc32.Checksum(Wrong()) == 0
  {
    ChecksumByLast(503, LAST, 0xFFFF_FFFF);
  }

  lemma TwiceInverted(data: seq<byte>, j: nat)
    requires j < |data|
    ensures Inverted(Inverted(data, j), j) == data
  {
    NotNot(data[j]);
  }

  lemma NotNot(b: byte)
    ensures !!b == b
  {}

  lemma RightIsConfusable()
    ensures |Right()| == 511 && Confusable(Right())
  {
    WrongChecksum();
    TwiceInverted(Wrong(), 108);
    InversionDifference(Right(), 108);
    CrcEchoes.EchoTopByte(402);
    RightPasses(Crc32.Checksum(Right()));
    Confusable511(Right(), 108);
  }

  lemma RightPasses(c: bv32)
    requires c ^ 0x00CC_7718 == 0
    ensures LastBytes(c) == MARK
  {
    var b := Crc32.BigEndian32(c);
    assert LastBytes(c) == [b[1], b[2], b[3]];
  }

  // ----- a full payload that never passes -----

  const LAST_OF_LOST: seq<byte> := [0x23, 0xF3, 0x57, 0x49]

  /** 512 bytes with checksum 1. */
  function Lost(): (s: seq<byte>)
    ensures |s| == 512
  {
    FIRST + Zeros(504) + LAST_OF_LOST
  }

  lemma LostChecksum()
    ensures Crc32.Checksum(Lost()) == 1
  {
    ChecksumByLast(504, LAST_OF_LOST, 0xFFFF_FFFE);
  }

  lemma LostNeverPasses()
    ensures !Survives(Lost()) && !Confusable(Lost())
  {
    LostChecksum();
    NothingLeft(Lost());
    assert Crc32.BigEndian32(1)[3] == 1;
    forall n | 0 <= n < 512 ensures Crc32.Checksum(Lost()) != Echo(n) {
      CrcEchoes.EchoTopBytes(n);
    }
    ConfusableIff(Lost());
  }
}
