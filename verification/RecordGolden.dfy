/** The record format against the file that prerequis/format_struct/database.c copies: its 48 bytes, the
    four records they are, and the copy, output_lo, which has the same bytes. */
module RecordGolden {
  import opened Basics
  import opened RecordFile

  const OUTPUT: seq<uint8> := DATA1 + DATA2 + DATA3 + DATA4
  const DATA1: seq<uint8> := [0x17, 0x00, 0x00, 0x0A, 0xAB, 0xCD, 0xEF, 0x01, 0x23, 0x45, 0x67, 0x89, 0xBB, 0xCC]
  const DATA2: seq<uint8> := [0x01, 0x00, 0x00, 0x00]
  const DATA3: seq<uint8> := [0xF0, 0x82, 0x00, 0x0A, 0, 0, 0, 0, 0, 0, 0, 0, 0, 0, 0x7A, 0xAE, 0x08, 0x00]
  const DATA4: seq<uint8> := [0x11, 0x80, 0x00, 0x04, 0x12, 0x34, 0x56, 0x78, 0x7B, 0x00, 0x00, 0x00]

  const FIRST := Record(23, [0xAB, 0xCD, 0xEF, 0x01, 0x23, 0x45, 0x67, 0x89, 0xBB, 0xCC], None)
  const SECOND := Record(1, [], None)
  const THIRD := Record(752, [0, 0, 0, 0, 0, 0, 0, 0, 0, 0], Some([0x7A, 0xAE, 0x08, 0x00]))
  const FOURTH := Record(17, [0x12, 0x34, 0x56, 0x78], Some([0x7B, 0x00, 0x00, 0x00]))

  /** The bytes of a record, one after the other. */
  lemma WrittenBytes(r: Record)
    ensures Written(r) ==
            [r.typ % 256, r.typ / 256 + (if r.uuid.Some? then 128 else 0), |r.payload| / 256, |r.payload| % 256]
            + r.payload + (if r.uuid.Some? then r.uuid.value else [])
  {}

  lemma FirstBytes()
    ensures Written(FIRST) == DATA1 && Written(SECOND) == DATA2
  {
    WrittenBytes(FIRST);
    WrittenBytes(SECOND);
  }

  lemma LastBytes()
    ensures Written(THIRD) == DATA3 && Written(FOURTH) == DATA4
  {
    WrittenBytes(THIRD);
    WrittenBytes(FOURTH);
  }

  lemma OutputRecords()
    ensures WrittenAll([FIRST, SECOND, THIRD, FOURTH]) == OUTPUT
  {
    FirstBytes();
    LastBytes();
    WrittenCons(FIRST, [SECOND, THIRD, FOURTH]);
    WrittenCons(SECOND, [THIRD, FOURTH]);
    WrittenCons(THIRD, [FOURTH]);
    WrittenCons(FOURTH, []);
  }

  lemma WrittenCons(r: Record, rs: seq<Record>)
    ensures WrittenAll([r] + rs) == Written(r) + WrittenAll(rs)
  {
    assert ([r] + rs)[1..] == rs;
  }

  /** The file is read as these four records, with their byte counts, and copied as it is. */
  lemma OutputCopied(junk: nat -> uint8)
    ensures Reads(Reader(OUTPUT, junk), 48, 0) ==
            [Result(FIRST, 14, 14), Result(SECOND, 4, 18), Result(THIRD, 18, 36), Result(FOURTH, 12, 48)]
    ensures Copied(OUTPUT, junk) == OUTPUT
  {
    var rs := [FIRST, SECOND, THIRD, FOURTH];
    OutputRecords();
    ReadAllBack(OUTPUT, rs, junk);
    ResultsCons(FIRST, [SECOND, THIRD, FOURTH], 0);
    ResultsCons(SECOND, [THIRD, FOURTH], 14);
    ResultsCons(THIRD, [FOURTH], 18);
    ResultsCons(FOURTH, [], 36);
    CopyIff(OUTPUT, junk);
  }

  lemma ResultsCons(r: Record, rs: seq<Record>, pos: nat)
    ensures var n := |Written(r)|;
            Results([r] + rs, pos) == [Result(r, n, pos + n)] + Results(rs, pos + n)
  {
    assert ([r] + rs)[1..] == rs;
  }
}
