/** Bytes and little-endian numbers, as they are stored in disk sectors, executables and stack pages. */
module Bytes {

  type Byte = x: int | 0 <= x < 256

  function U16(b: seq<Byte>, at: nat): (r: nat)
    requires at + 2 <= |b|
    ensures r < 0x1_0000
  {
    (b[at] as int) + 0x100 * (b[at + 1] as int)
  }

  function U32(b: seq<Byte>, at: nat): (r: nat)
    requires at + 4 <= |b|
    ensures r < 0x1_0000_0000
  {
    U16(b, at) + 0x1_0000 * U16(b, at + 2)
  }

  function U64(b: seq<Byte>, at: nat): (r: nat)
    requires at + 8 <= |b|
    ensures r < 0x1_0000_0000_0000_0000
  {
    U32(b, at) + 0x1_0000_0000 * U32(b, at + 4)
  }

  function Le16(v: nat): (r: seq<Byte>)
    requires v < 0x1_0000
    ensures r == [v % 0x100, v / 0x100] && U16(r, 0) == v
  {
    [v % 0x100, v / 0x100]
  }

  function Le32(v: nat): (r: seq<Byte>)
    requires v < 0x1_0000_0000
    ensures |r| == 4 && U32(r, 0) == v
  {
    var r := Le16(v % 0x1_0000) + Le16(v / 0x1_0000);
    assert U16(r, 0) == U16(Le16(v % 0x1_0000), 0);
    assert U16(r, 2) == U16(Le16(v / 0x1_0000), 0);
    r
  }

  function Le64(v: nat): (r: seq<Byte>)
    requires v < 0x1_0000_0000_0000_0000
    ensures |r| == 8 && U64(r, 0) == v
  {
    var lo, hi := Le32(v % 0x1_0000_0000), Le32(v / 0x1_0000_0000);
    U32Half(lo, hi);
    lo + hi
  }

  /** The least significant byte comes first. */
  lemma LittleEndian(b: seq<Byte>, at: nat)
    requires at + 4 <= |b|
    ensures U16(b, at) == (b[at] as int) + 0x100 * (b[at + 1] as int)
    ensures U32(b, at) == (b[at] as int) + 0x100 * (b[at + 1] as int) + 0x1_0000 * (b[at + 2] as int)
            + 0x100_0000 * (b[at + 3] as int)
  {
  }

  lemma U32Half(lo: seq<Byte>, hi: seq<Byte>)
    requires |lo| == 4 && |hi| == 4
    ensures U32(lo + hi, 0) == U32(lo, 0) && U32(lo + hi, 4) == U32(hi, 0)
  {
  }

  lemma U16Slice(a: seq<Byte>, i: nat)
    requires i + 2 <= |a|
    ensures U16(a, i) == U16(a[i..i + 2], 0)
  {
  }

  lemma U32Slice(a: seq<Byte>, i: nat)
    requires i + 4 <= |a|
    ensures U32(a, i) == U32(a[i..i + 4], 0)
  {
  }

  /** A number is read from its eight bytes. */
  lemma U64Slice(a: seq<Byte>, i: nat)
    requires i + 8 <= |a|
    ensures U64(a, i) == U64(a[i..i + 8], 0)
  {
  }

  /** `n` zero bytes. */
  function Zeros(n: nat): (r: seq<Byte>)
    ensures |r| == n && forall i | 0 <= i < n :: r[i] == 0
  {
    seq(n, _ => 0)
  }

  /** `s` with `piece` written over it from position `at`. */
  function Splice<T>(s: seq<T>, at: nat, piece: seq<T>): (r: seq<T>)
    requires at + |piece| <= |s|
    ensures |r| == |s|
    ensures forall i | 0 <= i < |s| :: r[i] == if at <= i < at + |piece| then piece[i - at] else s[i]
  {
    s[..at] + piece + s[at + |piece|..]
  }

  /** Writing a block in two consecutive pieces is writing it at once. */
  lemma SpliceTwice<T>(s: seq<T>, at: nat, a: seq<T>, b: seq<T>)
    requires at + |a| + |b| <= |s|
    ensures Splice(Splice(s, at, a), at + |a|, b) == Splice(s, at, a + b)
  {
  }

  lemma U32Local(a: seq<Byte>, b: seq<Byte>, at: nat)
    requires |a| == |b| && at + 4 <= |a|
    requires forall i | at <= i < at + 4 :: a[i] == b[i]
    ensures U32(a, at) == U32(b, at)
  {
  }

  lemma U32Spliced(s: seq<Byte>, at: nat, v: nat)
    requires at + 4 <= |s| && v < 0x1_0000_0000
    ensures U32(Splice(s, at, Le32(v)), at) == v
  {
  }
}
