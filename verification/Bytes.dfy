/** Bytes, little-endian numbers, and reading from a file at a position. */
module Bytes {

  type byte = x: int | 0 <= x < 256

  type Bytes = seq<byte>

  /** The 2, 4 or 8 bytes at a position as a little-endian number. */
  function U16(s: Bytes, at: nat): nat
    requires at + 2 <= |s|
  {
    var lo: int, hi: int := s[at], s[at + 1];
    lo + 0x100 * hi
  }

  function U32(s: Bytes, at: nat): nat
    requires at + 4 <= |s|
  {
    U16(s, at) + 0x1_0000 * U16(s, at + 2)
  }

  function U64(s: Bytes, at: nat): nat
    requires at + 8 <= |s|
  {
    U32(s, at) + 0x1_0000_0000 * U32(s, at + 4)
  }

  function Put16(n: nat): (s: Bytes)
    ensures |s| == 2
    ensures n < 0x1_0000 ==> U16(s, 0) == n
  {
    [n % 0x100, n / 0x100 % 0x100]
  }

  function Put32(n: nat): (s: Bytes)
    ensures |s| == 4
    ensures n < 0x1_0000_0000 ==> U32(s, 0) == n
  {
    Put16(n % 0x1_0000) + Put16(n / 0x1_0000)
  }

  function Put64(n: nat): (s: Bytes)
    ensures |s| == 8
    ensures n < 0x1_0000_0000_0000_0000 ==> U64(s, 0) == n
  {
    Put32(n % 0x1_0000_0000) + Put32(n / 0x1_0000_0000)
  }

  /** Python's slice: out-of-range bounds are clamped. */
  function Slice(s: Bytes, from: nat, to: nat): (r: Bytes)
    requires from <= to
    ensures |r| <= to - from
  {
    var hi := if to < |s| then to else |s|;
    if from < hi then s[from..hi] else []
  }

  /** Everything from a position to the end. */
  function From(s: Bytes, at: nat): Bytes {
    if at <= |s| then s[at..] else []
  }

  /** `seek(off)` then `read(n)`: what is there, at most `n` bytes. */
  function Read(file: Bytes, off: nat, n: nat): Bytes {
    Slice(file, off, off + n)
  }

  lemma SliceOfRest(s: Bytes, at: nat, from: nat, to: nat)
    requires from <= to
    ensures Slice(From(s, at), from, to) == Slice(s, at + from, at + to)
    ensures From(From(s, at), from) == From(s, at + from)
  {
  }

  lemma ReadMiddle(pre: Bytes, mid: Bytes, post: Bytes)
    ensures Read(pre + mid + post, |pre|, |mid|) == mid
  {
    if mid != [] {
      assert (pre + mid + post)[|pre|..|pre| + |mid|] == mid;
    }
  }
}
