/** The encoder against the datagram that progress_inginious.txt lists as expected, and the bytes
    of the receiver's replies. */
module Golden {
  import opened Basics
  import opened Bytes
  import opened Codec
  import Crc32
  import opened CrcEchoes
  import opened Receiver
  import opened Corruption

  const HELLO: seq<byte> := [0x68, 0x65, 0x6C, 0x6C, 0x6F, 0x20, 0x77, 0x6F, 0x72, 0x6C, 0x64]
  const HEADER: seq<byte> := [0x5C, 0x7B, 0x00, 0x0B, 0x17, 0x00, 0x00, 0x00]

  /** A DATA packet: window 28, sequence number 123, timestamp 23, payload "hello world". */
  const SAMPLE := Packet(PTYPE_DATA, false, 28, 123, 11, 23, Some(HELLO))

  lemma HelloChecksum()
    ensures Crc32.Checksum(HELLO) == 0x0D4A_1185
  {
    LeadsUpdates(0xFFFF_FFFF, HELLO, 0, 11, 0xF2B5_EE7A);
    assert HELLO[0..0 + 11] == HELLO;
  }

  lemma HeaderChecksum()
    ensures Crc32.Checksum(HEADER) == 0x33DA_E306
  {
    LeadsUpdates(0xFFFF_FFFF, HEADER, 0, 8, 0xCC25_1CF9);
    assert HEADER[0..0 + 8] == HEADER;
  }

  lemma SampleHeader()
    ensures Header(SAMPLE) == HEADER
  {
    ToByteOfValue(1);
    ToByteOfValue(28);
    ToByteOfValue(123);
    ToByteOfValue(11);
    CountIsCast(1);
    CountIsCast(28);
    CountIsCast(123);
    CountIsCast(11);
  }

  /** The encoding agrees with the repository's expected bytes, both checksums included. */
  lemma SampleDatagram()
    ensures Encode(SAMPLE) == HEADER + [0x33, 0xDA, 0xE3, 0x06] + HELLO + [0x0D, 0x4A, 0x11, 0x85]
  {
    SampleHeader();
    HeaderChecksum();
    HelloChecksum();
    assert HELLO[..11] == HELLO;
  }

  // ----- acknowledgements -----

  lemma AboveHalf(b: byte)
    requires 0 < b < 128
    ensures 128 + b != 0 && (128 + b) - 1 == 128 + (b - 1)
  {}

  lemma {:induction false} HalfAndMore(b: byte)
    requires b < 128
    ensures Count(128 + b) == 128 + Count(b)
  {
    if b == 0 {
      CountIsCast(128);
    } else {
      AboveHalf(b);
      HalfAndMore(b - 1);
    }
  }

  lemma AckFlagBits(w: byte)
    requires w < 32
    ensures PackFlags(2, false, w) == 128 + w
  {}

  lemma AckFlags(w: uint5)
    ensures Value(Flags(2, false, w)) == 128 + w
  {
    ToByteOfValue(2);
    CountIsCast(2);
    ToByteBound(w, 32);
    ByteConstants();
    AckFlagBits(ToByte(w));
    HalfAndMore(ToByte(w));
    ValueOfToByte(w);
  }

  /** Every reply is of 512 bytes: 128 plus the free slots, the number expected, six zeros, the checksum
      of these eight bytes, and zeros. */
  lemma AckBytes(r: ReceiverState)
    requires Balanced(r)
    ensures var d := Padded(AckOf(r), 512);
            && |d| == 512
            && Value(d[0]) == 128 + 31 - Occupied(r.slots) && Value(d[1]) == r.seqnum
            && d[2..8] == [0, 0, 0, 0, 0, 0]
            && d[8..12] == Crc32.BigEndian32(Crc32.Checksum(d[..8]))
            && forall i :: 12 <= i < 512 ==> d[i] == 0
  {
    var h := Header(AckOf(r));
    var d := Padded(AckOf(r), 512);
    AckFlags(r.window);
    ValueOfToByte(r.seqnum);
    assert d[..8] == h && h[0] == d[0] && h[1] == d[1];
    assert d[2..8] == h[2..8];
    NoLength();
  }

  lemma NoLength()
    ensures ToByte(0) == 0 && LittleEndian(0) == [0, 0, 0, 0]
  {}
}
