/** Small vocabulary shared by every module: bytes, optional values and the
    concatenation of a list of chunks. */
module Basics {

  type byte = bv8

  datatype Option<+T> = None | Some(value: T)

  type uint2 = n: nat | n < 4
  type uint5 = n: nat | n < 32
  type uint8 = n: nat | n < 256
  type uint16 = n: nat | n < 0x1_0000

  function Zeros(n: nat): (s: seq<byte>)
    ensures |s| == n
  {
    seq(n, i => 0)
  }

  /** All the elements of `chunks`, end to end. */
  function Concat<T>(chunks: seq<seq<T>>): seq<T> {
    if chunks == [] then [] else Concat(chunks[..|chunks| - 1]) + chunks[|chunks| - 1]
  }

  lemma ConcatSnoc<T>(chunks: seq<seq<T>>, c: seq<T>)
    ensures Concat(chunks + [c]) == Concat(chunks) + c
  {
    assert (chunks + [c])[..|chunks|] == chunks;
  }

  /** The concatenation of a prefix is a prefix of the concatenation. */
  lemma {:induction false} ConcatPrefix<T>(chunks: seq<seq<T>>, n: nat)
    requires n <= |chunks|
    ensures Concat(chunks[..n]) <= Concat(chunks)
    decreases |chunks| - n
  {
    if n == |chunks| {
      assert chunks[..n] == chunks;
    } else {
      ConcatPrefix(chunks, n + 1);
      assert chunks[..n + 1][..n] == chunks[..n];
    }
  }

  /** `memset` with 0. */
  method Clear(buf: array<byte>, n: nat)
    requires n <= buf.Length
    modifies buf
    ensures buf[..] == Zeros(n) + old(buf[n..])
  {
    forall k | 0 <= k < n {
      buf[k] := 0;
    }
  }

  /** Writes the elements of `src` into `buf` from offset `off` on, as `memcpy` does. */
  method CopyInto<T>(buf: array<T>, off: nat, src: seq<T>)
    requires off + |src| <= buf.Length
    modifies buf
    ensures buf[..] == old(buf[..off]) + src + old(buf[off + |src|..])
  {
    forall k | 0 <= k < |src| {
      buf[off + k] := src[k];
    }
  }

  /** The same copy, when `buf` holds `head` and beyond it still what `was` held. */
  method CopyNext<T>(buf: array<T>, off: nat, src: seq<T>, ghost head: seq<T>, ghost was: seq<T>)
    requires off == |head| && off + |src| <= buf.Length == |was|
    requires buf[..] == head + was[off..]
    modifies buf
    ensures buf[..] == (head + src) + was[off + |src|..]
  {
    CopyInto(buf, off, src);
    assert buf[..] == head + src + was[off + |src|..];
  }
}
