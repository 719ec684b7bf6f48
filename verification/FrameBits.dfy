/** A bitmap of 64-bit words, each word by its bits, the lowest first. */
module FrameBits {

  type Word64 = w: seq<bool> | |w| == 64 witness seq(64, _ => false)

  /** The words `!0` and `0`. */
  function Ones(): Word64 { seq(64, _ => true) }

  function Zeros(): Word64 { seq(64, _ => false) }

  /** The number of trailing zeros of the complement: the position of the lowest clear bit, or 64. */
  function LowestClear(w: Word64, k: nat): (r: nat)
    requires k <= 64
    ensures k <= r <= 64 && (r < 64 ==> !w[r])
    ensures forall j | k <= j < r :: w[j]
    decreases 64 - k
  {
    if k == 64 || !w[k] then k else LowestClear(w, k + 1)
  }

  lemma LowestClearExists(w: Word64)
    requires w != Ones()
    ensures LowestClear(w, 0) < 64
  {
  }

  // ------------------------------------------------------------------ bitmap

  /** Whether bit `i` of the bitmap is set. */
  predicate Used(bm: seq<Word64>, i: nat) { i / 64 < |bm| ==> bm[i / 64][i % 64] }

  function WithBit(w: Word64, k: nat, used: bool): Word64
    requires k < 64
  {
    w[k := used]
  }

  lemma SetWord(bm: seq<Word64>, i: nat, used: bool, x: nat)
    requires i / 64 < |bm| && x / 64 < |bm|
    ensures Used(bm[i / 64 := WithBit(bm[i / 64], i % 64, used)], x) <==> if x == i then used else Used(bm, x)
  {
  }

  lemma FillWord(bm: seq<Word64>, v: nat, used: bool, x: nat)
    requires v < |bm| && x / 64 < |bm|
    ensures Used(bm[v := if used then Ones() else Zeros()], x) <==> if x / 64 == v then used else Used(bm, x)
  {
  }

  /** Bits `a` to `b - 1` are now `used`, all others as before. */
  ghost predicate Filled(bm: seq<Word64>, bm': seq<Word64>, a: nat, b: nat, used: bool)
  {
    && |bm'| == |bm|
    && forall x: nat | x / 64 < |bm| :: Used(bm', x) <==> if a <= x < b then used else Used(bm, x)
  }

  lemma FilledOne(bm: seq<Word64>, bm1: seq<Word64>, bm2: seq<Word64>, a: nat, b: nat, used: bool)
    requires Filled(bm, bm1, a, b, used) && a <= b && b / 64 < |bm|
    requires bm2 == bm1[b / 64 := WithBit(bm1[b / 64], b % 64, used)]
    ensures Filled(bm, bm2, a, b + 1, used)
  {
    hide Used, WithBit;
    forall x: nat | x / 64 < |bm| ensures Used(bm2, x) <==> if a <= x < b + 1 then used else Used(bm, x) {
      SetWord(bm1, b, used, x);
    }
  }

  lemma FilledWord(bm: seq<Word64>, bm1: seq<Word64>, bm2: seq<Word64>, a: nat, b: nat, used: bool)
    requires Filled(bm, bm1, a, b, used) && a <= b && b % 64 == 0 && b / 64 < |bm|
    requires bm2 == bm1[b / 64 := if used then Ones() else Zeros()]
    ensures Filled(bm, bm2, a, b + 64, used)
  {
    hide Used;
    forall x: nat | x / 64 < |bm| ensures Used(bm2, x) <==> if a <= x < b + 64 then used else Used(bm, x) {
      FillWord(bm1, b / 64, used, x);
    }
  }

  lemma FilledNone(bm: seq<Word64>, a: nat, used: bool)
    ensures Filled(bm, bm, a, a, used)
  {
  }

  method SetOrClear(bm: array<Word64>, i: nat, used: bool)
    requires i / 64 < bm.Length
    modifies bm
    ensures bm[..] == old(bm[..])[i / 64 := WithBit(old(bm[..])[i / 64], i % 64, used)]
  {
    bm[i / 64] := WithBit(bm[i / 64], i % 64, used);
  }

  /** Set or clear `count` bits from `first` on, whole words at a time where it can. */
  method FillRange(bm: array<Word64>, first: nat, count: nat, used: bool)
    requires first + count <= 64 * bm.Length
    modifies bm
    ensures Filled(old(bm[..]), bm[..], first, first + count, used)
  {
    hide Filled, WithBit;
    var f, n := first, count;
    FilledNone(bm[..], first, used);
    while n > 0 && f % 64 != 0
      invariant f + n == first + count && first <= f && Filled(old(bm[..]), bm[..], first, f, used)
      decreases n
    {
      ghost var bm1 := bm[..];
      SetOrClear(bm, f, used);
      FilledOne(old(bm[..]), bm1, bm[..], first, f, used);
      f, n := f + 1, n - 1;
    }
    while n >= 64
      invariant f + n == first + count && first <= f && Filled(old(bm[..]), bm[..], first, f, used)
      invariant n == 0 || f % 64 == 0
      decreases n
    {
      ghost var bm1 := bm[..];
      bm[f / 64] := if used then Ones() else Zeros();
      FilledWord(old(bm[..]), bm1, bm[..], first, f, used);
      f, n := f + 64, n - 64;
    }
    while n > 0
      invariant f + n == first + count && first <= f && Filled(old(bm[..]), bm[..], first, f, used)
      decreases n
    {
      ghost var bm1 := bm[..];
      SetOrClear(bm, f, used);
      FilledOne(old(bm[..]), bm1, bm[..], first, f, used);
      f, n := f + 1, n - 1;
    }
  }
}
