/** What record.c makes of a file that ends inside a record, and what its copy is then. */
module CutRecords {
  import opened Basics
  import opened RecordFile

  /** The record read when only the first n bytes of `r` are there: the fixed fields have 0 for what is
      missing, the payload has what was in memory, the identifier has 0. */
  function CutRecord(r: Record, n: nat, junk: nat -> uint8): Record {
    Record(if n == 0 then 0 else if n == 1 then r.typ % 256 else r.typ,
           CutPayload(r.payload, n, junk),
           if n < 2 || r.uuid == None then None else Some(CutWord(r.uuid.value, n - 4 - |r.payload|)))
  }

  function CutPayload(payload: Payload, n: nat, junk: nat -> uint8): Payload {
    if n < 3 then []
    else if n == 3 then Junk(junk, |payload| - |payload| % 256)
    else if n - 4 < |payload| then payload[..n - 4] + Junk(junk, |payload|)[n - 4..]
    else payload
  }

  function CutWord(w: Word, m: int): Word {
    if m <= 0 then [0, 0, 0, 0] else if m < 4 then w[..m] + [0, 0, 0, 0][m..] else w
  }

  /** The bytes counted: those of the fields that are there as a whole. */
  function CutCount(r: Record, n: nat): nat {
    if n < 2 then 0 else if n < 4 then 2 else if n < 4 + |r.payload| then 4 else 4 + |r.payload|
  }

  /** `file` ends after the first n bytes of `r` at `pos`. */
  predicate EndsIn(file: seq<uint8>, pos: nat, r: Record, n: nat) {
    |file| == pos + n && n < |Written(r)| && file[pos..] == Written(r)[..n]
  }

  lemma WrittenAt(file: seq<uint8>, pos: nat, r: Record, n: nat)
    requires EndsIn(file, pos, r, n)
    ensures forall k :: 0 <= k < n ==> file[pos + k] == Written(r)[k]
  {
    assert forall k :: 0 <= k < n ==> file[pos..][k] == Written(r)[..n][k];
  }

  lemma WrittenParts(r: Record)
    ensures var w, len := Written(r), |r.payload|;
            && w[0] == HeaderOf(r) % 256 && w[1] == HeaderOf(r) / 256 && w[2] == len / 256 && w[3] == len % 256
            && (forall k :: 0 <= k < len ==> w[4 + k] == r.payload[k])
            && (r.uuid.Some? ==> forall k :: 0 <= k < 4 ==> w[4 + len + k] == r.uuid.value[k])
  {}

  /** The fixed fields of a cut record. */
  lemma CutFields(file: seq<uint8>, pos: nat, r: Record, n: nat)
    requires EndsIn(file, pos, r, n)
    ensures var len := |r.payload|;
            ReadFields(file, pos) ==
            Fields(if n == 0 then 0 else if n == 1 then HeaderOf(r) % 256 else HeaderOf(r),
                   if n < 3 then 0 else if n == 3 then len - len % 256 else len,
                   if n < 2 then 0 else if n < 4 then 2 else 4,
                   pos + if n < 4 then n else 4)
  {
    WrittenAt(file, pos, r, n);
    WrittenParts(r);
  }

  /** `fread` of an item of which m bytes are there. */
  lemma FreadCut(file: seq<uint8>, pos: nat, s: seq<uint8>, m: nat, init: seq<uint8>)
    requires |file| == pos + m && m <= |s| == |init| && forall k :: 0 <= k < m ==> file[pos + k] == s[k]
    ensures FreadContent(file, pos, init) == s[..m] + init[m..]
    ensures Counted(file, pos, |s|) == (if m == |s| then m else 0) && After(file, pos, |s|) == pos + m
  {}

  /** And at the end of the file. */
  lemma FreadNothing(file: seq<uint8>, pos: nat, init: seq<uint8>)
    requires |file| == pos
    ensures FreadContent(file, pos, init) == init && Counted(file, pos, |init|) == 0 && After(file, pos, |init|) == pos
  {}

  lemma FlagAndType(r: Record)
    ensures HeaderOf(r) / 0x8000 > 0 <==> r.uuid.Some?
    ensures HeaderOf(r) % 0x8000 == r.typ && HeaderOf(r) % 256 == r.typ % 256
  {}

  lemma CutEarly(file: seq<uint8>, pos: nat, r: Record, n: nat, junk: nat -> uint8)
    requires EndsIn(file, pos, r, n) && n < 4
    ensures Read(file, pos, junk) == Result(CutRecord(r, n, junk), CutCount(r, n), pos + n)
  {
    var f := ReadFields(file, pos);
    CutFields(file, pos, r, n);
    FlagAndType(r);
    FreadNothing(file, pos + n, Junk(junk, f.length));
    FreadNothing(file, pos + n, [0, 0, 0, 0]);
  }

  /** The file ends in the payload. */
  lemma CutInPayload(file: seq<uint8>, pos: nat, r: Record, n: nat, junk: nat -> uint8)
    requires EndsIn(file, pos, r, n) && 4 <= n < 4 + |r.payload|
    ensures Read(file, pos, junk) == Result(CutRecord(r, n, junk), CutCount(r, n), pos + n)
  {
    CutFields(file, pos, r, n);
    FlagAndType(r);
    WrittenAt(file, pos, r, n);
    WrittenParts(r);
    FreadCut(file, pos + 4, r.payload, n - 4, Junk(junk, |r.payload|));
    FreadNothing(file, pos + n, [0, 0, 0, 0]);
  }

  /** The file ends in the identifier. */
  lemma CutInFooter(file: seq<uint8>, pos: nat, r: Record, n: nat, junk: nat -> uint8)
    requires EndsIn(file, pos, r, n) && 4 + |r.payload| <= n
    ensures Read(file, pos, junk) == Result(CutRecord(r, n, junk), CutCount(r, n), pos + n)
  {
    var len := |r.payload|;
    CutFields(file, pos, r, n);
    FlagAndType(r);
    PayloadThere(file, pos, r, n);
    FreadAt(file, pos + 4, r.payload, Junk(junk, len));
    WordThere(file, pos, r, n);
    WordCut(file, pos + 4 + len, r.uuid.value, n - 4 - len);
  }

  lemma WordCut(file: seq<uint8>, pos: nat, w: Word, m: nat)
    requires |file| == pos + m && m < 4 && forall k :: 0 <= k < m ==> file[pos + k] == w[k]
    ensures UuidAt(file, pos) == CutWord(w, m) && Counted(file, pos, 4) == 0 && After(file, pos, 4) == pos + m
  {
    FreadCut(file, pos, w, m, [0, 0, 0, 0]);
    assert w[..0] + [0, 0, 0, 0][0..] == [0, 0, 0, 0];
  }

  lemma PayloadThere(file: seq<uint8>, pos: nat, r: Record, n: nat)
    requires EndsIn(file, pos, r, n) && 4 + |r.payload| <= n
    ensures At(file, pos + 4, r.payload)
  {
    WrittenAt(file, pos, r, n);
    WrittenParts(r);
  }

  lemma WordThere(file: seq<uint8>, pos: nat, r: Record, n: nat)
    requires EndsIn(file, pos, r, n) && 4 + |r.payload| <= n
    ensures r.uuid.Some? && n - 4 - |r.payload| < 4
    ensures forall k :: 0 <= k < n - 4 - |r.payload| ==> file[pos + 4 + |r.payload| + k] == r.uuid.value[k]
  {
    var len := |r.payload|;
    WrittenAt(file, pos, r, n);
    WrittenParts(r);
    forall k | 0 <= k < n - 4 - len ensures file[pos + 4 + len + k] == r.uuid.value[k] {
      assert file[pos + (4 + len + k)] == Written(r)[4 + len + k];
    }
  }

  /** Reading a record that the end of the file cuts. */
  lemma CutRead(file: seq<uint8>, pos: nat, r: Record, n: nat, junk: nat -> uint8)
    requires EndsIn(file, pos, r, n)
    ensures Read(file, pos, junk) == Result(CutRecord(r, n, junk), CutCount(r, n), pos + n)
  {
    if n < 4 {
      CutEarly(file, pos, r, n, junk);
    } else if n < 4 + |r.payload| {
      CutInPayload(file, pos, r, n, junk);
    } else {
      CutInFooter(file, pos, r, n, junk);
    }
  }

  lemma LastRead(file: seq<uint8>, pos: nat, r: Record, n: nat, junk: nat -> uint8)
    requires EndsIn(file, pos, r, n)
    ensures Reads(Reader(file, junk), |file|, pos) ==
            if n < 2 then [] else [Result(CutRecord(r, n, junk), CutCount(r, n), pos + n)]
  {
    var read := Reader(file, junk);
    CutRead(file, pos, r, n, junk);
    ReaderAt(file, pos, junk);
    ReaderAt(file, |file|, junk);
    ReadAtEnd(file, junk);
    assert Reads(read, |file|, |file|) == [];
  }

  /** A file that ends inside a record is copied up to that record, and from its second byte on the
      copy goes on with a whole record made of what was there. */
  lemma CutCopy(rs: seq<Record>, r: Record, n: nat, junk: nat -> uint8)
    requires n < |Written(r)|
    ensures Copied(WrittenAll(rs) + Written(r)[..n], junk) ==
            WrittenAll(if n < 2 then rs else rs + [CutRecord(r, n, junk)])
  {
    var tail := Written(r)[..n];
    var file := WrittenAll(rs) + tail;
    var pos := |WrittenAll(rs)|;
    ReadThrough(file, rs, tail, junk);
    assert |file| == pos + n && file[pos..] == tail;
    LastRead(file, pos, r, n, junk);
    RecordsOfResults(rs, 0);
    var last := Reads(Reader(file, junk), |file|, pos);
    RecordsAppend(Results(rs, 0), last);
    assert Records(last) == if n < 2 then [] else [CutRecord(r, n, junk)];
    assert rs + [] == rs;
  }

  lemma RecordsAppend(a: seq<Result>, b: seq<Result>)
    ensures Records(a + b) == Records(a) + Records(b)
  {}
}
