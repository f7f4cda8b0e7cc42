/** What inverting one byte does to a CRC-32. The register is linear, so the checksums of a
    message and of the message with one byte inverted differ by a word that depends only
    on how many bytes follow. */
module CrcErrors {
  import opened Basics
  import opened Crc32

  // ----- the register is linear -----

  lemma OddOdd(x: bv32, y: bv32)
    requires x & 1 == 1 && y & 1 == 1
    ensures BitStep(x ^ y) == BitStep(x) ^ BitStep(y)
  {}

  lemma EvenOdd(x: bv32, y: bv32)
    requires x & 1 == 0 && y & 1 == 1
    ensures BitStep(x ^ y) == BitStep(x) ^ BitStep(y)
  {}

  lemma OddEven(x: bv32, y: bv32)
    requires x & 1 == 1 && y & 1 == 0
    ensures BitStep(x ^ y) == BitStep(x) ^ BitStep(y)
  {}

  lemma EvenEven(x: bv32, y: bv32)
    requires x & 1 == 0 && y & 1 == 0
    ensures BitStep(x ^ y) == BitStep(x) ^ BitStep(y)
  {}

  lemma LowBit(x: bv32)
    ensures x & 1 == 0 || x & 1 == 1
  {}

  lemma BitStepLinear(x: bv32, y: bv32)
    ensures BitStep(x ^ y) == BitStep(x) ^ BitStep(y)
  {
    LowBit(x);
    LowBit(y);
    if x & 1 == 1 {
      if y & 1 == 1 { OddOdd(x, y); } else { OddEven(x, y); }
    } else {
      if y & 1 == 1 { EvenOdd(x, y); } else { EvenEven(x, y); }
    }
  }

  function Xor(x: bv32, y: bv32): bv32 { x ^ y }

  lemma StepsCommute()
    ensures forall x, y :: BitStep(Xor(x, y)) == Xor(BitStep(x), BitStep(y))
  {
    forall x, y ensures BitStep(Xor(x, y)) == Xor(BitStep(x), BitStep(y)) {
      BitStepLinear(x, y);
    }
  }

  /** What commutes with one step commutes with n of them. */
  lemma {:induction false} IterateCommutes<T(!new)>(add: (T, T) -> T, step: T -> T, x: T, y: T, n: nat)
    requires forall x, y :: step(add(x, y)) == add(step(x), step(y))
    ensures Iterate(step, add(x, y), n) == add(Iterate(step, x, n), Iterate(step, y, n))
    decreases n
  {
    if n > 0 {
      IterateCommutes(add, step, step(x), step(y), n - 1);
    }
  }

  /** What a difference has become one byte later. */
  function Carry(x: bv32): bv32 { Iterate(BitStep, x, 8) }

  lemma XorCommutes(c: bv32, x: bv32, d: bv32, e: bv32)
    requires d == c ^ x
    ensures d ^ e == (c ^ e) ^ x
  {}

  lemma MixCommutes(c: bv32, x: bv32, b: byte)
    ensures Mix(Xor(c, x), b) == Xor(Mix(c, b), x)
  {
    XorCommutes(c, x, c ^ x, b as bv32);
  }

  lemma ByteStepDifference(c: bv32, x: bv32, b: byte)
    ensures ByteStep(Xor(c, x), b) == Xor(ByteStep(c, b), Carry(x))
  {
    MixCommutes(c, x, b);
    StepsCommute();
    IterateCommutes(Xor, BitStep, Mix(c, b), x, 8);
  }

  lemma {:induction false} FoldCommutes<T(!new), B(!new)>(
    add: (T, T) -> T, step: (T, B) -> T, carry: T -> T, c: T, x: T, data: seq<B>)
    requires forall c, x, b :: step(add(c, x), b) == add(step(c, b), carry(x))
    ensures Fold(step, add(c, x), data) == add(Fold(step, c, data), Iterate(carry, x, |data|))
  {
    if data != [] {
      FoldCommutes(add, step, carry, step(c, data[0]), carry(x), data[1..]);
    }
  }

  /** A difference in the register is carried through a message whatever its bytes are. */
  lemma UpdateDifference(c: bv32, x: bv32, data: seq<byte>)
    ensures Update(Xor(c, x), data) == Xor(Update(c, data), Iterate(Carry, x, |data|))
  {
    forall c, x, b ensures ByteStep(Xor(c, x), b) == Xor(ByteStep(c, b), Carry(x)) {
      ByteStepDifference(c, x, b);
    }
    FoldCommutes(Xor, ByteStep, Carry, c, x, data);
  }

  lemma MixInverted(c: bv32, b: byte)
    ensures Mix(c, !b) == Xor(Mix(c, b), 0xFF)
  {}

  lemma InvertedStep(c: bv32, b: byte)
    ensures ByteStep(c, !b) == Xor(ByteStep(c, b), Carry(0xFF))
  {
    MixInverted(c, b);
    StepsCommute();
    IterateCommutes(Xor, BitStep, Mix(c, b), 0xFF, 8);
  }

  /** What inverting a byte adds to the checksum when n bytes follow it. */
  function Echo(n: nat): bv32 { Iterate(Carry, Carry(0xFF), n) }

  function Inverted(data: seq<byte>, j: nat): (d: seq<byte>)
    requires j < |data|
    ensures |d| == |data|
  {
    data[j := !data[j]]
  }

  lemma InversionInRegister(c: bv32, data: seq<byte>, j: nat)
    requires j < |data|
    ensures Update(c, Inverted(data, j)) == Xor(Update(c, data), Echo(|data| - 1 - j))
  {
    var r, after := Update(c, data[..j]), data[j + 1..];
    assert data == data[j := data[j]];
    UpdateInside(c, data, j, data[j], r);
    UpdateInside(c, data, j, !data[j], r);
    AfterInverted(r, data[j], after);
  }

  lemma AfterInverted(r: bv32, b: byte, after: seq<byte>)
    ensures Update(ByteStep(r, !b), after) == Xor(Update(ByteStep(r, b), after), Echo(|after|))
  {
    InvertedStep(r, b);
    UpdateDifference(ByteStep(r, b), Carry(0xFF), after);
  }

  lemma FinalCommutes(u: bv32, x: bv32)
    ensures Final(Xor(u, x)) == Xor(Final(u), x)
  {
    XorCommutes(u, x, u ^ x, 0xFFFF_FFFF);
  }

  lemma NotItself(b: byte)
    ensures !b != b
  {}

  lemma InvertedDiffers(data: seq<byte>, j: nat, s: seq<byte>)
    requires j < |data| && j < |s| && s[j] == data[j]
    ensures !(Inverted(data, j) <= s)
  {
    NotItself(data[j]);
    assert Inverted(data, j)[j] != s[j];
  }

  /** Inverting a byte changes the checksum by a word that depends on its place only. */
  lemma InversionDifference(data: seq<byte>, j: nat)
    requires j < |data|
    ensures Checksum(Inverted(data, j)) == Xor(Checksum(data), Echo(|data| - 1 - j))
  {
    InversionInRegister(0xFFFF_FFFF, data, j);
    FinalCommutes(Update(0xFFFF_FFFF, data), Echo(|data| - 1 - j));
  }
}
