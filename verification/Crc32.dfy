/** CRC-32 as zlib's `crc32` computes it: the bitwise reflected algorithm of
    section 8 of RFC 1952 with the polynomial 0xEDB88320. */
module Crc32 {
  import opened Basics

  /** One step of the register: shift right, and add the polynomial if a 1 came out. */
  function BitStep(c: bv32): bv32 {
    if c & 1 == 1 then (c >> 1) ^ 0xEDB8_8320 else c >> 1
  }

  /** n steps of some kind, one after the other. */
  function Iterate<T>(step: T -> T, c: T, n: nat): T
    decreases n, step
  {
    if n == 0 then c else Iterate(step, step(c), n - 1)
  }

  /** A byte is added to the low end of the register. */
  function Mix(c: bv32, b: byte): bv32 { c ^ (b as bv32) }

  /** The register after one byte. */
  function ByteStep(c: bv32, b: byte): bv32 {
    Iterate(BitStep, Mix(c, b), 8)
  }

  /** Feeding `data` to a register. */
  function Fold<T, B>(step: (T, B) -> T, c: T, data: seq<B>): T
    decreases |data|, step
  {
    if data == [] then c else Fold(step, step(c, data[0]), data[1..])
  }

  /** The register after all the bytes of `data`, starting from `c`. */
  function Update(c: bv32, data: seq<byte>): bv32 { Fold(ByteStep, c, data) }

  function Final(c: bv32): bv32 { c ^ 0xFFFF_FFFF }

  /** The checksum `crc32(0, data, |data|)`. */
  function Checksum(data: seq<byte>): bv32 {
    Final(Update(0xFFFF_FFFF, data))
  }

  /** A 32-bit value in network byte order, as `htonl` and `memcpy` lay it out. */
  function BigEndian32(v: bv32): (s: seq<byte>)
    ensures |s| == 4
  {
    [((v >> 24) & 0xFF) as byte, ((v >> 16) & 0xFF) as byte, ((v >> 8) & 0xFF) as byte, (v & 0xFF) as byte]
  }

  /** The step loses nothing: the polynomial has its top bit set, so the top bit
      of the result tells which bit was shifted out. */
  lemma BitStepInjective(c: bv32, d: bv32)
    requires BitStep(c) == BitStep(d)
    ensures c == d
  {}

  lemma {:induction false} IterateInjective<T>(step: T -> T, c: T, d: T, n: nat)
    requires forall a, b :: step(a) == step(b) ==> a == b
    requires Iterate(step, c, n) == Iterate(step, d, n)
    ensures c == d
    decreases n
  {
    if n > 0 {
      IterateInjective(step, step(c), step(d), n - 1);
    }
  }

  lemma EightKeepDistinct(c: bv32, d: bv32)
    requires c != d
    ensures Iterate(BitStep, c, 8) != Iterate(BitStep, d, 8)
  {
    forall a, b | BitStep(a) == BitStep(b) ensures a == b {
      BitStepInjective(a, b);
    }
    if Iterate(BitStep, c, 8) == Iterate(BitStep, d, 8) {
      IterateInjective(BitStep, c, d, 8);
    }
  }

  lemma MixBytes(c: bv32, a: byte, b: byte)
    requires a != b
    ensures Mix(c, a) != Mix(c, b)
  {}

  lemma MixRegisters(c: bv32, d: bv32, b: byte)
    requires c != d
    ensures Mix(c, b) != Mix(d, b)
  {}

  lemma XorKeepsDistinct(c: bv32, d: bv32, x: bv32)
    requires c != d
    ensures c ^ x != d ^ x
  {}

  lemma FinalDistinct(c: bv32, d: bv32)
    requires c != d
    ensures Final(c) != Final(d)
  {
    XorKeepsDistinct(c, d, 0xFFFF_FFFF);
  }

  /** From a fixed register, different bytes give different registers. */
  lemma DistinctBytes(c: bv32, a: byte, b: byte)
    requires a != b
    ensures ByteStep(c, a) != ByteStep(c, b)
  {
    MixBytes(c, a, b);
    EightKeepDistinct(Mix(c, a), Mix(c, b));
  }

  /** On a fixed byte, different registers stay different. */
  lemma DistinctRegisters(c: bv32, d: bv32, b: byte)
    requires c != d
    ensures ByteStep(c, b) != ByteStep(d, b)
  {
    MixRegisters(c, d, b);
    EightKeepDistinct(Mix(c, b), Mix(d, b));
  }

  lemma {:induction false} FoldInjective<T(!new), B(!new)>(step: (T, B) -> T, c: T, d: T, data: seq<B>)
    requires forall c, d, b :: step(c, b) == step(d, b) ==> c == d
    requires Fold(step, c, data) == Fold(step, d, data)
    ensures c == d
  {
    if data != [] {
      FoldInjective(step, step(c, data[0]), step(d, data[0]), data[1..]);
    }
  }

  lemma {:induction false} FoldAppend<T, B>(step: (T, B) -> T, c: T, a: seq<B>, b: seq<B>)
    ensures Fold(step, c, a + b) == Fold(step, Fold(step, c, a), b)
  {
    if a == [] {
      assert a + b == b;
    } else {
      assert (a + b)[1..] == a[1..] + b;
      FoldAppend(step, step(c, a[0]), a[1..], b);
    }
  }

  lemma RegistersStayDistinct()
    ensures forall c, d, b :: ByteStep(c, b) == ByteStep(d, b) ==> c == d
  {
    forall c, d, b | ByteStep(c, b) == ByteStep(d, b) ensures c == d {
      if c != d {
        DistinctRegisters(c, d, b);
      }
    }
  }

  /** On a fixed message, different registers stay different. */
  lemma UpdateInjectiveInRegister(c: bv32, d: bv32, data: seq<byte>)
    requires Update(c, data) == Update(d, data)
    ensures c == d
  {
    RegistersStayDistinct();
    FoldInjective(ByteStep, c, d, data);
  }

  lemma FoldInside<T, B>(step: (T, B) -> T, c: T, before: seq<B>, a: B, after: seq<B>)
    ensures Fold(step, c, before + [a] + after) == Fold(step, step(Fold(step, c, before), a), after)
  {
    assert before + [a] + after == before + ([a] + after);
    FoldAppend(step, c, before, [a] + after);
    assert ([a] + after)[1..] == after;
  }

  /** The register after a message, from the register in front of one of its bytes. */
  lemma UpdateInside(c: bv32, data: seq<byte>, i: nat, b: byte, r: bv32)
    requires i < |data| && r == Update(c, data[..i])
    ensures Update(c, data[i := b]) == Update(ByteStep(r, b), data[i + 1..])
  {
    assert data[i := b] == data[..i] + [b] + data[i + 1..];
    FoldInside(ByteStep, c, data[..i], b, data[i + 1..]);
  }

  /** The detection property: replacing one byte of a message of any length by a
      different byte always changes its checksum. */
  lemma OneByteChangesChecksum(data: seq<byte>, i: nat, b: byte)
    requires i < |data| && data[i] != b
    ensures Checksum(data[i := b]) != Checksum(data)
  {
    var r, after := Update(0xFFFF_FFFF, data[..i]), data[i + 1..];
    assert data == data[i := data[i]];
    UpdateInside(0xFFFF_FFFF, data, i, data[i], r);
    UpdateInside(0xFFFF_FFFF, data, i, b, r);
    AfterDistinctBytes(r, data[i], b, after);
    FinalDistinct(Update(0xFFFF_FFFF, data[i := b]), Update(0xFFFF_FFFF, data));
  }

  lemma AfterDistinctBytes(r: bv32, a: byte, b: byte, after: seq<byte>)
    requires a != b
    ensures Update(ByteStep(r, a), after) != Update(ByteStep(r, b), after)
  {
    DistinctBytes(r, a, b);
    if Update(ByteStep(r, a), after) == Update(ByteStep(r, b), after) {
      UpdateInjectiveInRegister(ByteStep(r, a), ByteStep(r, b), after);
    }
  }

  lemma BytesDetermineWord(v: bv32, w: bv32)
    requires BigEndian32(v) == BigEndian32(w)
    ensures v == w
  {
    var x, y := BigEndian32(v), BigEndian32(w);
    assert x[0] == y[0] && x[1] == y[1] && x[2] == y[2] && x[3] == y[3];
  }

  /** The checksum of the empty message is 0, so four zero bytes are its network form. */
  lemma EmptyChecksum()
    ensures BigEndian32(Checksum([])) == [0, 0, 0, 0]
  {}
}
