/** What the codec makes of whole datagrams of which one byte was replaced, and of
    padded acknowledgements. */
module Corruption {
  import opened Basics
  import opened Codec
  import Crc32

  /** A sealed stretch with one byte replaced is no longer sealed. */
  lemma SealBroken(data: seq<byte>, off: nat, content: seq<byte>, i: nat, b: byte)
    requires off + |content| + 4 <= |data| && data[off..off + |content| + 4] == Sealed(content)
    requires off <= i < off + |content| + 4 && data[i] != b
    ensures var d, n := data[i := b], off + |content|;
            d[n..n + 4] != Crc32.BigEndian32(Crc32.Checksum(d[off..n]))
  {
    var d, n := data[i := b], off + |content|;
    SealedSlice(data, off, content);
    if i < n {
      assert d[off..n] == content[i - off := b];
      assert d[n..n + 4] == data[n..n + 4];
      Crc32.OneByteChangesChecksum(content, i - off, b);
      if d[n..n + 4] == Crc32.BigEndian32(Crc32.Checksum(d[off..n])) {
        Crc32.BytesDetermineWord(Crc32.Checksum(content), Crc32.Checksum(d[off..n]));
      }
    } else {
      assert d[off..n] == content;
      assert d[n..n + 4][i - n] == b != data[n..n + 4][i - n];
    }
  }

  /** Damage inside the first twelve bytes never passes the header checks. */
  lemma HeaderDamageRejected(p: Packet, data: seq<byte>, i: nat, b: byte)
    requires |data| >= 12 && data[..12] == Sealed(Header(p))
    requires i < 12 && data[i] != b
    ensures HeaderStatus(data[i := b]) != PktOk
    ensures FieldsInOrder(data[i := b]) ==> HeaderStatus(data[i := b]) == ECrc
  {
    assert data[0..12] == data[..12];
    SealBroken(data, 0, Header(p), i, b);
    assert data[i := b][0..8] == data[i := b][..8];
    HeaderCodes(data[i := b]);
  }

  /** The fields of a packet the decoder accepts are in order, and stay so if other bytes than those of
      flags and length are replaced. */
  lemma FieldsUntouched(p: Packet, data: seq<byte>, i: nat, b: byte)
    requires Acceptable(p) && |data| >= 12 && data[..12] == Sealed(Header(p))
    requires i < |data| && i !in {0, 2, 3}
    ensures FieldsInOrder(data[i := b])
  {
    HeaderRoundTrip(p, data);
    HeaderCodes(data);
  }

  lemma EncodedPrefix(p: Packet, data: seq<byte>)
    requires Consistent(p) && Encode(p) <= data
    ensures data[..12] == Sealed(Header(p))
    ensures p.payload.Some? ==> 16 + p.length <= |data| && data[12..16 + p.length] == Sealed(p.payload.value)
  {
    assert data[..|Encode(p)|] == Encode(p);
    SlicePair(data, 0, Sealed(Header(p)), Body(p));
    if p.payload.Some? {
      assert p.payload.value[..p.length] == p.payload.value;
    }
  }

  /** Detection: a datagram as encoded, with any one of its bytes replaced by another
      value, is rejected, and the decoder reads nothing beyond it. The code is the one for a checksum
      unless the damage is in the flags or the length and breaks a rule for them. */
  lemma OneByteRejected(p: Packet, i: nat, b: byte)
    requires Consistent(p) && Acceptable(p)
    requires i < |Encode(p)| && Encode(p)[i] != b
    ensures var d := Encode(p)[i := b]; Readable(d, |d|) && DecodeStatus(d, |d|) != PktOk
    ensures var d := Encode(p)[i := b]; DecodeStatus(d, |d|) == ECrc <==> FieldsInOrder(d)
    ensures i !in {0, 2, 3} ==> FieldsInOrder(Encode(p)[i := b])
  {
    var e := Encode(p);
    EncodedPrefix(p, e);
    if i !in {0, 2, 3} {
      FieldsUntouched(p, e, i, b);
    }
    if i < 12 {
      HeaderDamageRejected(p, e, i, b);
      HeaderCodes(e[i := b]);
    } else {
      PayloadDamageRejected(p, e, i, b);
    }
  }

  lemma PayloadDamageRejected(p: Packet, e: seq<byte>, i: nat, b: byte)
    requires Consistent(p) && Acceptable(p) && p.payload.Some?
    requires |e| == 16 + p.length && e[..12] == Sealed(Header(p)) && e[12..16 + p.length] == Sealed(p.payload.value)
    requires 12 <= i < 16 + p.length && e[i] != b
    ensures var d := e[i := b];
            && Readable(d, |d|) && DecodeStatus(d, |d|) == ECrc
            && forall held :: DecodedPacket(d, |d|, held) == p.(payload := Some(d[12..12 + p.length]))
  {
    var d := e[i := b];
    assert d[..12] == e[..12];
    SealBroken(e, 12, p.payload.value, i, b);
    BrokenPayloadRejected(p, d);
  }

  lemma BrokenPayloadRejected(p: Packet, d: seq<byte>)
    requires Acceptable(p) && |d| == 16 + p.length && d[..12] == Sealed(Header(p))
    requires d[12 + p.length..16 + p.length] != Crc32.BigEndian32(Crc32.Checksum(d[12..12 + p.length]))
    ensures Readable(d, |d|) && DecodeStatus(d, |d|) == ECrc
    ensures forall held :: DecodedPacket(d, |d|, held) == p.(payload := Some(d[12..12 + p.length]))
  {
    HeaderRoundTrip(p, d);
  }

  /** What a damaged datagram leaves in the packet: with a byte of the first checksum replaced, all but
      tr and the payload, and from byte 12 on, all, with the damaged payload. */
  lemma DamagedPacket(p: Packet, i: nat, b: byte, held: Option<seq<byte>>)
    requires Consistent(p) && Acceptable(p)
    requires 8 <= i < |Encode(p)| && Encode(p)[i] != b
    ensures var d := Encode(p)[i := b];
            Readable(d, |d|) && DecodedPacket(d, |d|, held) ==
            if i < 12 then p.(tr := false, payload := held) else p.(payload := Some(d[12..12 + p.length]))
  {
    var e := Encode(p);
    EncodedPrefix(p, e);
    if i < 12 {
      SealDamagedPacket(p, e, i, b, held);
    } else {
      PayloadDamageRejected(p, e, i, b);
    }
  }

  lemma SealDamagedPacket(p: Packet, e: seq<byte>, i: nat, b: byte, held: Option<seq<byte>>)
    requires Acceptable(p) && |e| >= 12 && e[..12] == Sealed(Header(p)) && 8 <= i < 12 && e[i] != b
    ensures var d := e[i := b];
            Readable(d, |d|) && DecodedPacket(d, |d|, held) == p.(tr := false, payload := held)
  {
    HeaderDamageRejected(p, e, i, b);
    FieldsUntouched(p, e, i, b);
    HeaderRoundTrip(p, e);
    RefusedLeft(e[i := b], |e|, held);
  }

  // ----- acknowledgements -----

  /** The receiver sends the twelve encoded bytes of an acknowledgement in a
      zeroed buffer, `size` bytes in all. */
  function Padded(p: Packet, size: nat): (s: seq<byte>)
    requires Encodable(p) && p.payload.None? && size >= 16
    ensures |s| == size && Encode(p) <= s
  {
    Encode(p) + Zeros(size - 12)
  }

  /** The packet the sender gets out of a padded acknowledgement. */
  function Unpadded(p: Packet): Packet { p.(payload := Some([])) }

  lemma EmptyPayloadStatus(p: Packet, d: seq<byte>, held: Option<seq<byte>>)
    requires Acceptable(p) && p.payload.None? && p.length == 0
    requires |d| >= 16 && d[..12] == Sealed(Header(p))
    ensures Readable(d, |d|)
    ensures DecodeStatus(d, |d|) == if d[12..16] == [0, 0, 0, 0] then PktOk else ECrc
    ensures DecodedPacket(d, |d|, held) == Unpadded(p)
  {
    HeaderRoundTrip(p, d);
    assert PayloadOf(d) == [];
    Crc32.EmptyChecksum();
  }

  /** A padded acknowledgement decodes as that acknowledgement: the padding passes for
      an empty payload and its checksum, because the checksum of nothing is 0. */
  lemma PaddedAckDecodes(p: Packet, size: nat, held: Option<seq<byte>>)
    requires Acceptable(p) && p.payload.None? && p.length == 0 && size >= 16
    ensures var d := Padded(p, size);
            Readable(d, size) && DecodeStatus(d, size) == PktOk && DecodedPacket(d, size, held) == Unpadded(p)
  {
    var d := Padded(p, size);
    EncodedPrefix(p, d);
    EmptyPayloadStatus(p, d, held);
    assert d[12..16] == [0, 0, 0, 0];
  }

  /** With one byte replaced, a padded acknowledgement is rejected exactly when the byte
      is among the first sixteen; otherwise it still decodes as the same acknowledgement. */
  lemma PaddedAckOneByte(p: Packet, size: nat, i: nat, b: byte, held: Option<seq<byte>>)
    requires Acceptable(p) && p.payload.None? && p.length == 0 && size >= 16
    requires i < size && Padded(p, size)[i] != b
    ensures var d := Padded(p, size)[i := b];
            && Readable(d, size)
            && (DecodeStatus(d, size) == PktOk <==> 16 <= i)
            && (DecodeStatus(d, size) == ECrc <==> i < 16 && FieldsInOrder(d))
            && (16 <= i ==> DecodedPacket(d, size, held) == Unpadded(p))
  {
    var e := Padded(p, size);
    var d := e[i := b];
    EncodedPrefix(p, e);
    assert e[12..16] == [0, 0, 0, 0];
    if i !in {0, 2, 3} {
      FieldsUntouched(p, e, i, b);
    }
    if i < 12 {
      HeaderDamageRejected(p, e, i, b);
      HeaderCodes(d);
    } else {
      assert d[..12] == e[..12];
      EmptyPayloadStatus(p, d, held);
      if i < 16 {
        assert d[12..16][i - 12] == b != 0;
      } else {
        assert d[12..16] == e[12..16];
      }
    }
  }
}
