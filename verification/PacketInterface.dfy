/** The packet structure and its encoder and decoder over buffers, as the C code
    updates them, proved against the byte-sequence functions of `Codec`. */
module PacketInterface {
  import opened Basics
  import opened Bytes
  import opened Codec
  import Crc32

  // The three pieces that `pkt_encode` copies one after the other.

  function FlagBytes(p: Packet): (s: seq<byte>)
    ensures |s| == 2
  {
    [Flags(p.typ, p.tr, p.window), ToByte(p.seqnum)]
  }

  function SizeBytes(p: Packet): (s: seq<byte>)
    ensures |s| == 2
  {
    [ToByte(p.length / 256), ToByte(p.length % 256)]
  }

  lemma HeaderPieces(p: Packet)
    ensures FlagBytes(p) + SizeBytes(p) + LittleEndian(p.timestamp) == Header(p)
  {}

  class Pkt {
    var typ: uint2
    var tr: bool
    var window: uint5
    var seqnum: uint8
    var length: uint16
    var timestamp: bv32
    var payload: Option<seq<byte>>

    function Contents(): Packet
      reads this
    {
      Packet(typ, tr, window, seqnum, length, timestamp, payload)
    }

    constructor ()
      ensures Contents() == Packet(0, false, 0, 0, 0, 0, None)
    {
      typ, tr, window, seqnum, length, timestamp, payload := 0, false, 0, 0, 0, 0, None;
    }

    /** Assigning to a bit field keeps the low bits. */
    method SetType(t: uint8)
      modifies this
      ensures Contents() == old(Contents()).(typ := t % 4)
    {
      typ := t % 4;
    }

    method SetWindow(w: uint8)
      modifies this
      ensures Contents() == old(Contents()).(window := w % 32)
    {
      window := w % 32;
    }

    method SetSeqnum(s: uint8)
      modifies this
      ensures Contents() == old(Contents()).(seqnum := s)
    {
      seqnum := s;
    }

    method SetPayload(data: array<byte>, n: uint16)
      requires n <= data.Length
      modifies this
      ensures Contents() == old(Contents()).(length := n, payload := Some(old(data[..n])))
      ensures Consistent(Contents())
    {
      payload := Some(data[..n]);
      length := n;
    }

    /** `pkt_encode`: fills `buf` piece by piece at a moving offset. */
    method Encode(buf: array<byte>) returns (len: nat)
      requires Encodable(Contents()) && |Codec.Encode(Contents())| <= buf.Length
      modifies buf
      ensures len == |Codec.Encode(Contents())|
      ensures buf[..] == Codec.Encode(Contents()) + old(buf[len..])
    {
      ghost var was := buf[..];
      len := EncodeHeader(buf);
      if payload.Some? {
        EncodePayload(buf, payload.value[..length], Sealed(Header(Contents())), was);
        len := 16 + length;
      }
    }

    /** The payload and its checksum, behind the header. */
    static method EncodePayload(buf: array<byte>, content: seq<byte>, ghost head: seq<byte>, ghost was: seq<byte>)
      requires |head| == 12 && 16 + |content| <= buf.Length == |was| && buf[..] == head + was[12..]
      modifies buf
      ensures buf[..] == (head + Sealed(content)) + was[16 + |content|..]
    {
      var seal := Crc32.BigEndian32(Crc32.Checksum(content));
      CopyNext(buf, 12, content, head, was);
      CopyNext(buf, 12 + |content|, seal, head + content, was);
      assert (head + content) + seal == head + Sealed(content);
    }

    /** The first twelve bytes; the checksum is computed over what was just written. */
    method EncodeHeader(buf: array<byte>) returns (len: nat)
      requires 12 <= buf.Length
      modifies buf
      ensures len == 12 && buf[..] == Sealed(Header(Contents())) + old(buf[12..])
    {
      ghost var was, h := buf[..], Header(Contents());
      EncodeFields(buf);
      assert buf[..8] == h && was[8..][4..] == was[12..];
      CopyNext(buf, 8, Crc32.BigEndian32(Crc32.Checksum(buf[..8])), h, was);
      len := 12;
    }

    method EncodeFields(buf: array<byte>)
      requires 12 <= buf.Length
      modifies buf
      ensures buf[..] == Header(Contents()) + old(buf[8..])
    {
      ghost var was := buf[..];
      var p := Contents();
      CopyNext(buf, 0, FlagBytes(p), [], was);
      CopyNext(buf, 2, SizeBytes(p), [] + FlagBytes(p), was);
      CopyNext(buf, 4, LittleEndian(p.timestamp), [] + FlagBytes(p) + SizeBytes(p), was);
      HeaderPieces(p);
      assert [] + FlagBytes(p) + SizeBytes(p) + LittleEndian(p.timestamp) == Header(p);
    }

    /** The encoder of src/packet_interface.c: it first checks the capacity it is given. */
    method EncodeBounded(buf: array<byte>, capacity: nat) returns (code: Status, len: nat)
      requires Encodable(Contents()) && capacity <= buf.Length
      modifies buf
      ensures code == ENoMem <==> capacity < 16 + length
      ensures code == ENoMem ==> len == capacity && buf[..] == old(buf[..])
      ensures code != ENoMem ==>
        && code == PktOk
        && len == |Codec.Encode(Contents())| <= capacity
        && buf[..] == Codec.Encode(Contents()) + old(buf[len..])
      ensures buf[capacity..] == old(buf[capacity..])
    {
      if capacity < 16 + length {
        return ENoMem, capacity;
      }
      ghost var was := buf[..];
      code := PktOk;
      len := Encode(buf);
      assert buf[capacity..] == buf[..][len..][capacity - len..] == was[capacity..];
    }

    /** `pkt_decode`: the header first, then the payload if more was received. */
    method Decode(data: array<byte>, len: nat) returns (code: Status)
      requires Readable(data[..], len)
      modifies this
      ensures code == DecodeStatus(data[..], len)
      ensures Contents() == DecodedPacket(data[..], len, old(payload))
    {
      code := DecodeHeader(data);
      if code == PktOk && len > 12 {
        var end: nat := 12 + length;
        assert data[12..end] == PayloadOf(data[..]) && data[end..end + 4] == data[..][end..end + 4];
        payload := Some(data[12..end]);
        if Crc32.BigEndian32(Crc32.Checksum(data[12..end])) != data[end..end + 4] {
          code := ECrc;
        }
      }
    }

    /** Overwrites the header fields, then checks them. */
    method DecodeHeader(data: array<byte>) returns (code: Status)
      requires data.Length >= 12
      modifies this
      ensures code == HeaderStatus(data[..])
      ensures Contents() == DecodedPacket(data[..], 12, old(payload))
    {
      Load(data);
      code := Check(data);
    }

    /** The checks; the length is put right once the type has passed, and the tr bit is held
        at 0 until all have passed. */
    method Check(data: array<byte>) returns (code: Status)
      requires data.Length >= 12 && typ == TypeOf(data[0]) && !tr
      modifies `tr, `length
      ensures code == HeaderStatus(data[..])
      ensures tr == (code == PktOk && TrOf(data[0]))
      ensures length == if code == ETr || code == EType then old(length) else BigEndian16(data[2], data[3])
    {
      var realTr, realLength := TrOf(data[0]), BigEndian16(data[2], data[3]);
      code := CheckFields(realTr, realLength);
      HeaderStatusOf(data[..], typ, realTr, realLength);
      if code != ETr && code != EType {
        length := realLength;
      }
      if code == PktOk {
        code := CheckSeal(data, realTr);
      }
    }

    /** The last check, and the tr bit. */
    method CheckSeal(data: array<byte>, realTr: bool) returns (code: Status)
      requires data.Length >= 12 && !tr
      modifies `tr
      ensures code == if data[..][8..12] == Crc32.BigEndian32(Crc32.Checksum(data[..][..8])) then PktOk else ECrc
      ensures tr == (code == PktOk && realTr)
    {
      var sealed := HeaderSealed(data);
      if sealed {
        tr := realTr;
      }
      code := if sealed then PktOk else ECrc;
    }

    lemma HeaderStatusOf(d: seq<byte>, t: uint2, realTr: bool, realLength: uint16)
      requires |d| >= 12 && t == TypeOf(d[0]) && realTr == TrOf(d[0]) && realLength == LengthOf(d)
      ensures var status := FieldStatus(t, realTr, realLength);
              HeaderStatus(d) ==
              if status == PktOk && d[8..12] != Crc32.BigEndian32(Crc32.Checksum(d[..8])) then ECrc else status
    {}

    method CheckFields(realTr: bool, realLength: uint16) returns (code: Status)
      ensures code == FieldStatus(typ, realTr, realLength)
    {
      if realTr && typ != PTYPE_DATA {
        return ETr;
      }
      if typ != PTYPE_DATA && typ != PTYPE_ACK && typ != PTYPE_NACK {
        return EType;
      }
      if typ == PTYPE_DATA && (realLength <= 0 || realLength > MAX_PAYLOAD_SIZE) {
        return ELength;
      }
      return PktOk;
    }

    /** Twelve bytes land on the fields: the length with its bytes the wrong way round. */
    method Load(data: array<byte>)
      requires data.Length >= 12
      modifies this
      ensures Contents() == Packet(TypeOf(data[0]), false, WindowOf(data[0]), Value(data[1]),
                                   BigEndian16(data[3], data[2]),
                                   LittleEndian32(data[4], data[5], data[6], data[7]), old(payload))
    {
      typ, window, seqnum := TypeOf(data[0]), WindowOf(data[0]), Value(data[1]);
      length := BigEndian16(data[3], data[2]);
      timestamp := LittleEndian32(data[4], data[5], data[6], data[7]);
      tr := false;
    }

    static method HeaderSealed(data: array<byte>) returns (sealed: bool)
      requires data.Length >= 12
      ensures sealed <==> data[..][8..12] == Crc32.BigEndian32(Crc32.Checksum(data[..][..8]))
    {
      assert data[..][..8] == data[..8] && data[..][8..12] == data[8..12];
      sealed := Crc32.BigEndian32(Crc32.Checksum(data[..8])) == data[8..12];
    }
  }
}
