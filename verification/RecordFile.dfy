/** The record files of prerequis/format_struct: a self-delimiting format, and the program
    that copies a file record by record. */
module RecordFile {
  import opened Basics
  import opened Codec

  type uint15 = n: nat | n < 0x8000

  /** A record: a type, a payload and perhaps an identifier as footer. */
  datatype Record = Record(typ: uint15, payload: Payload, uuid: Option<Word>)

  /** A 32-bit number, as its four bytes in memory: they are only ever moved. */
  type Word = s: seq<uint8> | |s| == 4 witness [0, 0, 0, 0]

  type Payload = p: seq<uint8> | |p| < 0x1_0000 witness []

  // ----- the format -----

  /** The footer flag above the fifteen bits of the type. */
  function HeaderOf(r: Record): uint16 { (if r.uuid.Some? then 0x8000 else 0) + r.typ }

  function Little16(n: uint16): seq<uint8> { [n % 256, n / 256] }

  function Big16(n: uint16): seq<uint8> { [n / 256, n % 256] }

  /** Header in host order, length in network order, payload, footer if there is one. */
  function Written(r: Record): (s: seq<uint8>)
    ensures |s| == 4 + |r.payload| + (if r.uuid.Some? then 4 else 0)
  {
    Little16(HeaderOf(r)) + Big16(|r.payload|) + r.payload + Footer(r)
  }

  function WrittenAll(rs: seq<Record>): seq<uint8> {
    if rs == [] then [] else Written(rs[0]) + WrittenAll(rs[1..])
  }

  // ----- reading -----

  /** `fread` of one item of |init| bytes at `pos`: what is left of the file, up to the size
      of the item, replaces the first bytes of the buffer `init`. */
  function FreadContent(file: seq<uint8>, pos: nat, init: seq<uint8>): (content: seq<uint8>)
    requires pos <= |file|
    ensures |content| == |init|
  {
    seq(|init|, i requires 0 <= i < |init| => if pos + i < |file| then file[pos + i] else init[i])
  }

  /** Where the file stands after it. */
  function After(file: seq<uint8>, pos: nat, n: nat): (p: nat)
    requires pos <= |file|
    ensures pos <= p <= |file|
  {
    if pos + n <= |file| then pos + n else |file|
  }

  /** The bytes the caller counts: the whole item or nothing. */
  function Counted(file: seq<uint8>, pos: nat, n: nat): nat
    requires pos <= |file|
  {
    if pos + n <= |file| then n else 0
  }

  function Junk(junk: nat -> uint8, n: nat): (s: seq<uint8>)
    ensures |s| == n
  {
    seq(n, i requires 0 <= i < n => junk(i))
  }

  /** What `record_read` produces: the record, the bytes counted, the new position. */
  datatype Result = Result(record: Record, count: nat, pos: nat)

  /** The two fixed fields of a record, and the same bookkeeping. */
  datatype Fields = Fields(header: uint16, length: uint16, count: nat, pos: nat)

  function ReadFields(file: seq<uint8>, pos: nat): (f: Fields)
    requires pos <= |file|
    ensures pos <= f.pos <= |file| && f.count <= f.pos - pos
  {
    var h := FreadContent(file, pos, [0, 0]);
    var mid := After(file, pos, 2);
    var l := FreadContent(file, mid, [0, 0]);
    Fields(FromLittle16(h), FromBig16(l), Counted(file, pos, 2) + Counted(file, mid, 2), After(file, mid, 2))
  }

  function FromLittle16(h: seq<uint8>): uint16
    requires |h| == 2
  {
    256 * (h[1] as nat) + h[0]
  }

  function FromBig16(l: seq<uint8>): uint16
    requires |l| == 2
  {
    256 * (l[0] as nat) + l[1]
  }

  /** The identifier at `pos`, read over four zero bytes. */
  function UuidAt(file: seq<uint8>, pos: nat): Word
    requires pos <= |file|
  {
    FreadContent(file, pos, [0, 0, 0, 0])
  }

  /** A record of which type and payload have been read, and its footer if it has one. */
  function ReadEnd(file: seq<uint8>, header: uint16, payload: Payload, count: nat, pos: nat): (r: Result)
    requires pos <= |file|
    ensures pos <= r.pos <= |file| && r.count - count <= r.pos - pos
  {
    if header / 0x8000 > 0
    then Result(Record(header % 0x8000, payload, Some(UuidAt(file, pos))),
                count + Counted(file, pos, 4), After(file, pos, 4))
    else Result(Record(header % 0x8000, payload, None), count, pos)
  }

  /** The payload and the footer that the fixed fields announce. */
  function ReadRest(file: seq<uint8>, f: Fields, junk: nat -> uint8): (r: Result)
    requires f.pos <= |file|
    ensures f.pos <= r.pos <= |file| && r.count - f.count <= r.pos - f.pos
  {
    ReadEnd(file, f.header, FreadContent(file, f.pos, Junk(junk, f.length)),
            f.count + Counted(file, f.pos, f.length), After(file, f.pos, f.length))
  }

  /** `record_read` at `pos`. A file that ends early is not detected: the header fields read
      as 0 where bytes are missing and the payload keeps what its fresh memory held. */
  function Read(file: seq<uint8>, pos: nat, junk: nat -> uint8): (r: Result)
    requires pos <= |file|
    ensures pos <= r.pos <= |file| && r.count <= r.pos - pos
  {
    ReadRest(file, ReadFields(file, pos), junk)
  }

  /** `record_read` on a given file, as a function of the position. */
  function Reader(file: seq<uint8>, junk: nat -> uint8): nat -> Result {
    (pos: nat) => Read(file, if pos <= |file| then pos else |file|, junk)
  }

  /** Reading on from `pos` until nothing is counted, in a file of n bytes. */
  function Reads(read: nat -> Result, n: nat, pos: nat): seq<Result>
    requires pos <= n
    decreases n - pos
  {
    var r := read(pos);
    if r.count == 0 || !(pos < r.pos <= n) then [] else [r] + Reads(read, n, r.pos)
  }

  /** A read that counts something moves on. */
  lemma ReaderAt(file: seq<uint8>, pos: nat, junk: nat -> uint8)
    requires pos <= |file|
    ensures var r := Reader(file, junk)(pos);
            r == Read(file, pos, junk) && (r.count != 0 ==> pos < r.pos <= |file|)
  {}

  function Records(results: seq<Result>): (rs: seq<Record>)
    ensures |rs| == |results|
  {
    seq(|results|, i requires 0 <= i < |results| => results[i].record)
  }

  /** The copy loop of database.c: what is read until nothing is counted, written again. */
  function Copied(file: seq<uint8>, junk: nat -> uint8): seq<uint8> {
    WrittenAll(Records(Reads(Reader(file, junk), |file|, 0)))
  }

  // ----- reading back what was written -----

  lemma HeaderParts(n: uint16)
    ensures FromLittle16(Little16(n)) == n && FromBig16(Big16(n)) == n
  {}

  /** `s` lies in `file` at `pos`. */
  predicate At(file: seq<uint8>, pos: nat, s: seq<uint8>) {
    pos + |s| <= |file| && file[pos..pos + |s|] == s
  }

  lemma AtParts(file: seq<uint8>, pos: nat, a: seq<uint8>, b: seq<uint8>)
    requires At(file, pos, a + b)
    ensures At(file, pos, a) && At(file, pos + |a|, b)
  {
    SlicePair(file, pos, a, b);
  }

  function Footer(r: Record): seq<uint8> { if r.uuid.Some? then r.uuid.value else [] }

  /** The fields of a written record, wherever it lies in a file. */
  lemma FieldsInPlace(file: seq<uint8>, pos: nat, r: Record)
    requires At(file, pos, Written(r))
    ensures At(file, pos, Little16(HeaderOf(r))) && At(file, pos + 2, Big16(|r.payload|))
    ensures At(file, pos + 4, r.payload) && At(file, pos + 4 + |r.payload|, Footer(r))
  {
    AtParts(file, pos, Little16(HeaderOf(r)) + Big16(|r.payload|) + r.payload, Footer(r));
    AtParts(file, pos, Little16(HeaderOf(r)) + Big16(|r.payload|), r.payload);
    AtParts(file, pos, Little16(HeaderOf(r)), Big16(|r.payload|));
  }

  lemma FieldsBack(file: seq<uint8>, pos: nat, header: uint16, length: uint16)
    requires At(file, pos, Little16(header)) && At(file, pos + 2, Big16(length))
    ensures ReadFields(file, pos) == Fields(header, length, 4, pos + 4)
  {
    HeaderParts(header);
    HeaderParts(length);
  }

  /** `fread` of what lies in place. */
  lemma FreadAt(file: seq<uint8>, pos: nat, s: seq<uint8>, init: seq<uint8>)
    requires At(file, pos, s) && |init| == |s|
    ensures FreadContent(file, pos, init) == s
    ensures Counted(file, pos, |s|) == |s| && After(file, pos, |s|) == pos + |s|
  {
    var part := file[pos..pos + |s|];
    assert forall i :: 0 <= i < |s| ==> part[i] == file[pos + i];
  }

  lemma RestBack(file: seq<uint8>, pos: nat, r: Record, junk: nat -> uint8)
    requires At(file, pos, r.payload) && At(file, pos + |r.payload|, Footer(r))
    ensures ReadRest(file, Fields(HeaderOf(r), |r.payload|, 4, pos), junk) ==
            Result(r, |Written(r)|, pos + |r.payload| + |Footer(r)|)
  {
    FreadAt(file, pos, r.payload, Junk(junk, |r.payload|));
    if r.uuid.Some? {
      FreadAt(file, pos + |r.payload|, Footer(r), [0, 0, 0, 0]);
    }
  }

  /** Reading where a record was written gives back that record, counts its bytes and
      stops right after it. */
  lemma ReadBack(file: seq<uint8>, pos: nat, r: Record, junk: nat -> uint8)
    requires At(file, pos, Written(r))
    ensures Read(file, pos, junk) == Result(r, |Written(r)|, pos + |Written(r)|)
  {
    FieldsInPlace(file, pos, r);
    FieldsBack(file, pos, HeaderOf(r), |r.payload|);
    RestBack(file, pos + 4, r, junk);
  }

  /** At the end of the file nothing is counted. */
  lemma ReadAtEnd(file: seq<uint8>, junk: nat -> uint8)
    ensures Read(file, |file|, junk).count == 0
  {}

  /** The first record of a written list, and what comes after it. */
  lemma FirstInPlace(file: seq<uint8>, pos: nat, rs: seq<Record>, tail: seq<uint8>)
    requires pos <= |file| && rs != [] && file[pos..] == WrittenAll(rs) + tail
    ensures At(file, pos, Written(rs[0])) && file[pos + |Written(rs[0])|..] == WrittenAll(rs[1..]) + tail
  {
    var w, rest := Written(rs[0]), WrittenAll(rs[1..]);
    assert (w + rest) + tail == w + (rest + tail);
    SplitAt(file, pos, w, rest + tail);
  }

  lemma SplitAt(file: seq<uint8>, pos: nat, a: seq<uint8>, b: seq<uint8>)
    requires pos <= |file| && file[pos..] == a + b
    ensures At(file, pos, a) && file[pos + |a|..] == b
  {
    assert file[pos..][..|a|] == a && file[pos..][|a|..] == b;
    assert file[pos..pos + |a|] == file[pos..][..|a|];
    assert file[pos + |a|..] == file[pos..][|a|..];
  }

  /** What reading should return for these records from `pos` on. */
  function Results(rs: seq<Record>, pos: nat): seq<Result> {
    if rs == [] then []
    else
      var next := pos + |Written(rs[0])|;
      [Result(rs[0], |Written(rs[0])|, next)] + Results(rs[1..], next)
  }

  /** From `pos` on, `read` returns these records and comes to `end`. */
  ghost predicate Returns(read: nat -> Result, n: nat, pos: nat, rs: seq<Record>, end: nat)
    decreases |rs|
  {
    if rs == [] then pos == end
    else
      var next := pos + |Written(rs[0])|;
      read(pos) == Result(rs[0], |Written(rs[0])|, next) && next <= n && Returns(read, n, next, rs[1..], end)
  }

  lemma {:induction false} ReadsReturned(read: nat -> Result, n: nat, pos: nat, rs: seq<Record>, end: nat)
    requires pos <= n && end <= n && Returns(read, n, pos, rs, end)
    ensures Reads(read, n, pos) == Results(rs, pos) + Reads(read, n, end)
    decreases |rs|
  {
    if rs != [] {
      var next := pos + |Written(rs[0])|;
      ReadsReturned(read, n, next, rs[1..], end);
      Associative(Result(rs[0], |Written(rs[0])|, next), Results(rs[1..], next), Reads(read, n, end));
    }
  }

  lemma Associative<T>(x: T, s: seq<T>, t: seq<T>)
    ensures [x] + (s + t) == ([x] + s) + t
  {}

  /** One read in a file of written records. */
  lemma ReadFirst(file: seq<uint8>, pos: nat, rs: seq<Record>, tail: seq<uint8>, junk: nat -> uint8,
                  read: nat -> Result)
    requires read == Reader(file, junk) && pos <= |file| && rs != [] && file[pos..] == WrittenAll(rs) + tail
    ensures var n := |Written(rs[0])|;
            && pos + n <= |file| && read(pos) == Result(rs[0], n, pos + n)
            && file[pos + n..] == WrittenAll(rs[1..]) + tail
  {
    ReaderAt(file, pos, junk);
    FirstInPlace(file, pos, rs, tail);
    ReadBack(file, pos, rs[0], junk);
  }

  lemma {:induction false} FileReturns(
    file: seq<uint8>, pos: nat, rs: seq<Record>, tail: seq<uint8>, junk: nat -> uint8, read: nat -> Result)
    requires read == Reader(file, junk) && pos <= |file| && file[pos..] == WrittenAll(rs) + tail
    ensures |tail| <= |file| && Returns(read, |file|, pos, rs, |file| - |tail|)
    decreases |rs|
  {
    if rs != [] {
      ReadFirst(file, pos, rs, tail, junk, read);
      FileReturns(file, pos + |Written(rs[0])|, rs[1..], tail, junk, read);
    } else {
      assert file[pos..] == tail;
    }
  }

  /** The records at the start of a file are read one after the other, then what follows. */
  lemma ReadThrough(file: seq<uint8>, rs: seq<Record>, tail: seq<uint8>, junk: nat -> uint8)
    requires file == WrittenAll(rs) + tail
    ensures var read := Reader(file, junk);
            Reads(read, |file|, 0) == Results(rs, 0) + Reads(read, |file|, |file| - |tail|)
  {
    var read := Reader(file, junk);
    assert file[0..] == file;
    FileReturns(file, 0, rs, tail, junk, read);
    ReadsReturned(read, |file|, 0, rs, |file| - |tail|);
  }

  /** A list of records that was written reads back as the same list, each record with its byte
      count and ending where the next begins, whatever was in memory. */
  lemma ReadAllBack(file: seq<uint8>, rs: seq<Record>, junk: nat -> uint8)
    requires file == WrittenAll(rs)
    ensures Reads(Reader(file, junk), |file|, 0) == Results(rs, 0)
  {
    assert file + [] == file;
    ReadThrough(file, rs, [], junk);
    ReaderAt(file, |file|, junk);
    ReadAtEnd(file, junk);
    assert Results(rs, 0) + [] == Results(rs, 0);
  }

  lemma RecordsCons(r: Result, tail: seq<Result>)
    ensures Records([r] + tail) == [r.record] + Records(tail)
  {}

  lemma {:induction false} RecordsOfResults(rs: seq<Record>, pos: nat)
    ensures Records(Results(rs, pos)) == rs
    decreases |rs|
  {
    if rs != [] {
      var n := |Written(rs[0])|;
      RecordsCons(Result(rs[0], n, pos + n), Results(rs[1..], pos + n));
      RecordsOfResults(rs[1..], pos + n);
    }
  }

  /** Two lists with the same bytes are the same list. */
  lemma WrittenAllInjective(rs: seq<Record>, ss: seq<Record>)
    requires WrittenAll(rs) == WrittenAll(ss)
    ensures rs == ss
  {
    ReadAllBack(WrittenAll(rs), rs, _ => 0);
    ReadAllBack(WrittenAll(rs), ss, _ => 0);
    RecordsOfResults(rs, 0);
    RecordsOfResults(ss, 0);
  }

  ghost predicate WellFormed(file: seq<uint8>) {
    exists rs: seq<Record> :: WrittenAll(rs) == file
  }

  /** The copy, always a list of whole records, equals the file exactly when the file is one. */
  lemma CopyIff(file: seq<uint8>, junk: nat -> uint8)
    ensures Copied(file, junk) == file <==> WellFormed(file)
  {
    if WellFormed(file) {
      var rs: seq<Record> :| WrittenAll(rs) == file;
      ReadAllBack(file, rs, junk);
      RecordsOfResults(rs, 0);
    }
  }

  // ----- the program -----

  /** An open file: its bytes and its position. */
  class File {
    var data: seq<uint8>
    var pos: nat

    ghost predicate Valid()
      reads this
    {
      pos <= |data|
    }

    constructor (data: seq<uint8>)
      ensures Valid() && this.data == data && pos == 0
    {
      this.data, pos := data, 0;
    }

    method Fread(init: seq<uint8>) returns (items: nat, content: seq<uint8>)
      requires Valid()
      modifies this`pos
      ensures Valid() && pos == After(data, old(pos), |init|)
      ensures content == FreadContent(data, old(pos), init)
      ensures items == if old(pos) + |init| <= |data| then 1 else 0
    {
      content := FreadContent(data, pos, init);
      items := if pos + |init| <= |data| then 1 else 0;
      pos := After(data, pos, |init|);
    }

    method Append(s: seq<uint8>)
      modifies this
      ensures data == old(data) + s && pos == old(pos)
    {
      data := data + s;
    }
  }

  /** `record_write` at the end of `f`, one field after the other. */
  method Write(r: Record, f: File) returns (wrote: nat)
    requires f.Valid()
    modifies f
    ensures f.Valid() && f.pos == old(f.pos)
    ensures f.data == old(f.data) + Written(r) && wrote == |Written(r)|
  {
    f.Append(Little16(HeaderOf(r)));
    f.Append(Big16(|r.payload|));
    wrote := 4;
    if |r.payload| > 0 {
      f.Append(r.payload);
      wrote := wrote + |r.payload|;
    }
    if r.uuid.Some? {
      f.Append(r.uuid.value);
      wrote := wrote + 4;
    }
  }

  /** `record_read`, one field after the other. */
  method ReadRecord(f: File, junk: nat -> uint8) returns (r: Record, read: nat)
    requires f.Valid()
    modifies f`pos
    ensures f.Valid() && Result(r, read, f.pos) == Read(f.data, old(f.pos), junk)
  {
    var header, length, n, payload;
    header, length, read := ReadFixed(f);
    payload, n := ReadPayload(f, length, junk);
    r, read := ReadFooter(f, header, payload, read + n);
  }

  method ReadPayload(f: File, length: uint16, junk: nat -> uint8) returns (payload: Payload, read: nat)
    requires f.Valid()
    modifies f`pos
    ensures f.Valid() && f.pos == After(f.data, old(f.pos), length)
    ensures payload == FreadContent(f.data, old(f.pos), Junk(junk, length))
    ensures read == Counted(f.data, old(f.pos), length)
  {
    payload, read := [], 0;
    if length > 0 {
      var items, content := f.Fread(Junk(junk, length));
      payload := content;
      read := if items == 1 then length else 0;
    }
  }

  method ReadFooter(f: File, header: uint16, payload: Payload, before: nat) returns (r: Record, read: nat)
    requires f.Valid()
    modifies f`pos
    ensures f.Valid() && Result(r, read, f.pos) == ReadEnd(f.data, header, payload, before, old(f.pos))
  {
    read := before;
    r := Record(header % 0x8000, payload, None);
    if header / 0x8000 > 0 {
      var items, u := f.Fread([0, 0, 0, 0]);
      r, read := r.(uuid := Some(u)), read + 4 * items;
    }
  }

  method ReadFixed(f: File) returns (header: uint16, length: uint16, read: nat)
    requires f.Valid()
    modifies f`pos
    ensures f.Valid() && Fields(header, length, read, f.pos) == ReadFields(f.data, old(f.pos))
  {
    var items, h := f.Fread([0, 0]);
    read := 2 * items;
    var l;
    items, l := f.Fread([0, 0]);
    read := read + 2 * items;
    header, length := FromLittle16(h), FromBig16(l);
  }

  /** What is still to be copied when the next read of a loop is the one at `pos`. */
  function Rest(read: nat -> Result, n: nat, pos: nat): seq<uint8>
    requires pos <= n
  {
    WrittenAll(Records(Reads(read, n, pos)))
  }

  lemma RestEnds(read: nat -> Result, n: nat, pos: nat)
    requires pos <= n && read(pos).count == 0
    ensures Rest(read, n, pos) == []
  {}

  lemma RestContinues(read: nat -> Result, n: nat, pos: nat)
    requires pos <= n && read(pos).count != 0 && pos < read(pos).pos <= n
    ensures Rest(read, n, pos) == Written(read(pos).record) + Rest(read, n, read(pos).pos)
  {
    var r := read(pos);
    var tail := Reads(read, n, r.pos);
    RecordsCons(r, tail);
    assert ([r.record] + Records(tail))[1..] == Records(tail);
  }

  /** `record_read`, as the step of a reader that always moves on. */
  method ReadNext(f: File, junk: nat -> uint8, ghost read: nat -> Result) returns (r: Record, n: nat)
    requires f.Valid() && read == Reader(f.data, junk)
    modifies f`pos
    ensures f.Valid() && Result(r, n, f.pos) == read(old(f.pos)) && (n != 0 ==> old(f.pos) < f.pos)
  {
    r, n := ReadRecord(f, junk);
    ReaderAt(f.data, old(f.pos), junk);
  }

  /** The loop of database.c. */
  method Copy(input: File, output: File, junk: nat -> uint8)
    requires input.Valid() && input.pos == 0 && output.Valid() && output.data == [] && input != output
    modifies input`pos, output
    ensures output.data == Copied(input.data, junk)
    ensures output.data == input.data <==> WellFormed(input.data)
  {
    CopyRest(input, output, junk, Reader(input.data, junk));
    CopyIff(input.data, junk);
  }

  method CopyRest(input: File, output: File, junk: nat -> uint8, ghost read: nat -> Result)
    requires input.Valid() && output.Valid() && input != output && read == Reader(input.data, junk)
    modifies input`pos, output
    ensures output.data == old(output.data + Rest(read, |input.data|, input.pos))
  {
    ghost var n, at, all := |input.data|, input.pos, output.data + Rest(read, |input.data|, input.pos);
    var r, count := ReadNext(input, junk, read);
    while count != 0
      invariant input.Valid() && output.Valid() && input.data == old(input.data) && at <= n
      invariant Result(r, count, input.pos) == read(at) && (count != 0 ==> at < input.pos)
      invariant output.data + Rest(read, n, at) == all
      decreases n - at
    {
      RestContinues(read, n, at);
      at := input.pos;
      var wrote := Write(r, output);
      r, count := ReadNext(input, junk, read);
    }
    RestEnds(read, n, at);
  }
}
