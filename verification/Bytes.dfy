/** Bytes as numbers and back. Both directions count, which keeps integer and
    bit-vector reasoning apart; `CountIsCast` says the count is the ordinary value. */
module Bytes {
  import opened Basics

  function Count(b: byte): nat {
    if b == 0 then 0 else Count(b - 1) + 1
  }

  function ToByte(n: uint8): byte {
    if n == 0 then 0 else ToByte(n - 1) + 1
  }

  lemma SuccessorCast(b: byte)
    requires b != 255
    ensures (b + 1) as nat == b as nat + 1
  {}

  lemma {:induction false} CountIsCast(b: byte)
    ensures Count(b) == b as nat
  {
    if b != 0 {
      CountIsCast(b - 1);
      SuccessorCast(b - 1);
    }
  }

  lemma CountRange(b: byte)
    ensures Count(b) < 256
  {
    CountIsCast(b);
  }

  /** The number a byte stands for. */
  function Value(b: byte): uint8 {
    CountRange(b);
    Count(b)
  }

  lemma {:induction false} ToByteOfValue(b: byte)
    ensures ToByte(Value(b)) == b
  {
    if b != 0 {
      ToByteOfValue(b - 1);
      CountRange(b - 1);
    }
  }

  lemma {:induction false} ValueOfToByte(n: uint8)
    ensures Value(ToByte(n)) == n
  {
    if n != 0 {
      var b := ToByte(n - 1);
      ValueOfToByte(n - 1);
      assert b != 255 by { CountIsCast(255); }
      assert b + 1 != 0 && b + 1 - 1 == b;
    }
  }

  /** `n` fits in as many bits as its byte does. */
  lemma {:induction false} ToByteBound(n: uint8, bound: uint8)
    requires n < bound
    ensures ToByte(n) < ToByte(bound)
  {
    if n + 1 < bound {
      ToByteBound(n, bound - 1);
    }
    StepUp(bound - 1);
  }

  lemma StepUp(n: uint8)
    requires n < 255
    ensures ToByte(n) < ToByte(n + 1)
  {
    ValueOfToByte(n);
    assert ToByte(n) != 255 by { CountIsCast(255); }
  }

  lemma ByteBound(b: byte, bound: byte)
    requires b < bound
    ensures Count(b) < Count(bound)
  {
    if b + 1 < bound {
      ByteBound(b, bound - 1);
    }
  }
}
