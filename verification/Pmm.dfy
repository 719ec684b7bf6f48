/** The frame allocator: a bitmap of the frames in use, searched a word at a time. */
module FrameAllocator {
  import opened Wrappers
  import opened FrameBits

  const PAGE: nat := 0x1000
  const MIN_ALLOC_ADDR: nat := 0x10_0000

  /** The clear bits of a bitmap. */
  ghost function Clear(bm: seq<Word64>): set<nat> { set i: nat | 0 <= i < 64 * |bm| && !Used(bm, i) }

  ghost function Run(a: nat, n: nat): set<nat> { set i: nat | a <= i < a + n && InRun(i, a, n) }

  predicate InRun(i: nat, a: nat, n: nat) { a <= i < a + n }

  lemma {:induction false} RunSize(a: nat, n: nat)
    ensures |Run(a, n)| == n
  {
    if n == 0 {
      assert Run(a, n) == {};
    } else {
      RunSize(a, n - 1);
      assert Run(a, n) == Run(a, n - 1) + {a + n - 1};
    }
  }

  lemma TakeOut(s: set<nat>, r: set<nat>)
    requires r <= s
    ensures |s - r| == |s| - |r|
  {
  }

  lemma PutIn(s: set<nat>, r: set<nat>)
    requires r !! s
    ensures |s + r| == |s| + |r|
  {
  }

  lemma FilledUsed(bm: seq<Word64>, bm': seq<Word64>, a: nat, n: nat)
    requires Filled(bm, bm', a, a + n, true) && a + n <= 64 * |bm|
    ensures Clear(bm') == Clear(bm) - Run(a, n)
  {
  }

  lemma FilledFree(bm: seq<Word64>, bm': seq<Word64>, a: nat, n: nat)
    requires Filled(bm, bm', a, a + n, false) && a + n <= 64 * |bm|
    ensures Clear(bm') == Clear(bm) + Run(a, n)
  {
  }

  ghost predicate PastEnd(bm: seq<Word64>, total: nat) { forall i: nat | total <= i < 64 * |bm| :: Used(bm, i) }

  /** The `n` frames from `a` on are all free. */
  ghost predicate FreeRun(bm: seq<Word64>, a: nat, n: nat) { forall i | a <= i < a + n :: !Used(bm, i) }

  lemma FreeRunClear(bm: seq<Word64>, a: nat, n: nat)
    requires FreeRun(bm, a, n)
    ensures Run(a, n) <= Clear(bm)
  {
  }

  // -------------------------------------------------------- round the bitmap

  function Rem(x: nat, words: nat): (r: nat)
    requires words > 0
    ensures r < words
  {
    x % words
  }

  /** Remainders of consecutive numbers. */
  lemma RemNext(x: nat, words: nat)
    requires words > 0
    ensures Rem(x + 1, words) == if Rem(x, words) + 1 == words then 0 else Rem(x, words) + 1
  {
    var q, r := x / words, x % words;
    assert x + 1 == q * words + (r + 1);
    if r + 1 == words {
      assert x + 1 == (q + 1) * words;
      ModUnique(x + 1, words, q + 1, 0);
    } else {
      ModUnique(x + 1, words, q, r + 1);
    }
  }

  lemma ModUnique(x: nat, words: nat, q: nat, r: nat)
    requires r < words && x == q * words + r
    ensures x % words == r
  {
    var d := x / words - q;
    assert x == (x / words) * words + x % words;
    assert d * words == r - x % words;
    AtLeastOnce(d, words);
  }

  lemma AtLeastOnce(d: int, w: nat)
    ensures d >= 1 ==> d * w >= w
    ensures d <= -1 ==> d * w + w <= 0
  {
  }

  lemma {:induction false} RemAfter(hint: nat, words: nat, n: nat)
    requires n < words
    ensures Rem(hint + n, words) == if Rem(hint, words) + n < words then Rem(hint, words) + n
            else Rem(hint, words) + n - words
  {
    hide Rem;
    if n > 0 {
      RemAfter(hint, words, n - 1);
      RemNext(hint + n - 1, words);
    }
  }

  /** The step, counted from `hint`, that comes past word `v`. */
  function StepTo(hint: nat, words: nat, v: nat): nat
    requires v < words
  {
    if v >= Rem(hint, words) then v - Rem(hint, words) else v + words - Rem(hint, words)
  }

  /** Starting anywhere, `words` steps come past every word. */
  lemma ComesPast(hint: nat, words: nat, v: nat)
    requires v < words
    ensures StepTo(hint, words, v) < words && Rem(hint + StepTo(hint, words, v), words) == v
  {
    hide Rem;
    RemAfter(hint, words, StepTo(hint, words, v));
  }

  lemma StepOf(hint: nat, words: nat, n: nat)
    requires n < words
    ensures StepTo(hint, words, Rem(hint + n, words)) == n
  {
    hide Rem;
    RemAfter(hint, words, n);
  }

  /** `f` is the lowest free frame of the first word, from `hint` on and round the bitmap, that has one. */
  ghost predicate NextFit(free: set<nat>, hint: nat, words: nat, f: nat)
  {
    && f in free && f / 64 < words
    && forall x | x in free && x / 64 < words ::
         && StepTo(hint, words, f / 64) <= StepTo(hint, words, x / 64)
         && (x / 64 == f / 64 ==> f <= x)
  }

  datatype FreeError = Unaligned | OutOfRange | NotAllocated

  class Pmm {
    constructor (words: nat, total: nat)
      requires words == (total + 63) / 64
      ensures bitmap.Length == words && totalFrames == total && fresh(bitmap) && freeFrames == 0 && nextHint == 0
      ensures forall i | 0 <= i < words :: bitmap[i] == Ones()
    {
      bitmap := new Word64[words](_ => Ones());
      totalFrames := total;
      freeFrames := 0;
      nextHint := 0;
    }

    const bitmap: array<Word64>
    const totalFrames: nat
    var freeFrames: nat
    var nextHint: nat

    /** The free frames. */
    ghost function Frames(): set<nat>
      reads this, bitmap
    {
      Clear(bitmap[..])
    }

    /** The count is exact, and frames past the end are never free. */
    ghost predicate Valid()
      reads this, bitmap
    {
      && bitmap.Length == (totalFrames + 63) / 64
      && freeFrames == |Frames()|
      && PastEnd(bitmap[..], totalFrames)
    }

    method AllocOne() returns (r: Option<nat>)
      requires Valid()
      modifies this, bitmap
      ensures Valid()
      ensures r.None? <==> old(freeFrames) == 0
      ensures r.None? ==> Frames() == old(Frames()) && bitmap[..] == old(bitmap[..]) && nextHint == old(nextHint)
      ensures r.Some? ==> NextFit(old(Frames()), old(nextHint), bitmap.Length, r.value / PAGE)
                          && nextHint == r.value / PAGE / 64
      ensures r.Some? ==> && r.value % PAGE == 0 && r.value / PAGE in old(Frames()) && r.value / PAGE < totalFrames
                          && Frames() == old(Frames()) - {r.value / PAGE}
    {
      if freeFrames == 0 { return None; }
      hide Clear, Used, PastEnd;
      var words := bitmap.Length;
      var n := 0;
      while n < words
        invariant 0 <= n <= words && Valid() && bitmap[..] == old(bitmap[..]) && freeFrames == old(freeFrames)
                  && nextHint == old(nextHint)
        invariant forall m | 0 <= m < n :: FullAt(bitmap[..], nextHint, m)
      {
        var w := Rem(nextHint + n, words);
        var word := bitmap[w];
        if word != Ones() {
          var frame := TakeBit(w);
          FirstFit(old(bitmap[..]), old(nextHint), n, frame);
          return Some(frame * PAGE);
        }
        n := n + 1;
      }
      AllFull(bitmap[..], nextHint);
      return None;
    }

    /** Mark the lowest clear bit of word `w`. */
    method TakeBit(w: nat) returns (frame: nat)
      requires Valid() && w < bitmap.Length && bitmap[w] != Ones()
      modifies this, bitmap
      ensures Valid() && frame in old(Frames()) && frame < totalFrames && Frames() == old(Frames()) - {frame}
              && nextHint == w
      ensures frame / 64 == w && forall x | x in old(Frames()) && x / 64 == w :: frame <= x
    {
      hide Clear, Used, PastEnd;
      var word := bitmap[w];
      LowestClearExists(word);
      var bit := LowestClear(word, 0);
      frame := w * 64 + bit;
      LowestOf(bitmap[..], w, bit);
      AllocBit(bitmap[..], w, bit);
      PastEndKept(bitmap[..], bitmap[..][w := WithBit(word, bit, true)], totalFrames);
      InUseBelow(bitmap[..], frame, totalFrames);
      bitmap[w] := WithBit(word, bit, true);
      assert bitmap[..] == old(bitmap[..])[w := WithBit(word, bit, true)];
      freeFrames := freeFrames - 1;
      nextHint := w;
    }

    /** Mark a run of free frames. */
    method TakeRun(start: nat, count: nat)
      requires Valid() && start + count <= totalFrames && FreeRun(bitmap[..], start, count)
      modifies this, bitmap
      ensures Valid() && Frames() == old(Frames()) - Run(start, count) && nextHint == old(nextHint)
    {
      hide Clear, Used, FreeRun, PastEnd;
      ghost var bm := bitmap[..];
      RunSize(start, count);
      FreeRunClear(bm, start, count);
      TakeOut(Clear(bm), Run(start, count));
      FillRange(bitmap, start, count, true);
      FilledUsed(bm, bitmap[..], start, count);
      FilledPastEnd(bm, bitmap[..], start, start + count, true, totalFrames);
      freeFrames := freeFrames - count;
    }

    /** The lowest run of `count` free frames, taken; `None` only if there is no such run. */
    method AllocContiguous(count: nat) returns (r: Option<nat>)
      requires Valid()
      modifies this, bitmap
      ensures Valid()
      ensures r.None? <==> count == 0 || forall a: nat | a + count <= totalFrames :: !FreeRun(old(bitmap[..]), a, count)
      ensures r.None? ==> bitmap[..] == old(bitmap[..])
      ensures nextHint == old(nextHint)
      ensures r.Some? ==> && r.value % PAGE == 0 && r.value / PAGE + count <= totalFrames
                          && FreeRun(old(bitmap[..]), r.value / PAGE, count)
                          && (forall a: nat | a < r.value / PAGE :: !FreeRun(old(bitmap[..]), a, count))
                          && Frames() == old(Frames()) - Run(r.value / PAGE, count)
    {
      hide Clear, Used, FreeRun, PastEnd;
      if count == 0 { return None; }
      if count > freeFrames {
        TooMany(bitmap[..], count);
        return None;
      }
      ghost var bm := bitmap[..];
      var run, start, frame := 0, 0, 0;
      Nowhere(bm, count);
      while frame < totalFrames
        invariant freeFrames == old(freeFrames) && nextHint == old(nextHint)
        invariant bitmap[..] == bm && Tail(bm, frame, run, count)
                  && (run > 0 ==> start + run == frame)
        invariant NoRunBefore(bm, frame, count)
        decreases totalFrames - frame
      {
        if frame % 64 == 0 && bitmap[frame / 64] == Ones() {
          SkipWord(bm, frame, run, count);
          run := 0;
          frame := frame + 64;
          continue;
        }
        TestFrame(bm, frame, run, count);
        if TestBit(bitmap[..], frame) {
          run := 0;
        } else {
          if run == 0 {
            start := frame;
          }
          run := run + 1;
          if run == count {
            FoundRun(bm, start, frame, count);
            TakeRun(start, count);
            return Some(start * PAGE);
          }
        }
        frame := frame + 1;
      }
      NoRun(bm, frame, count, totalFrames);
      return None;
    }

    /** Give `count` frames back; a rejected request changes nothing. */
    method Free(phys: nat, count: nat) returns (r: Result<(), FreeError>)
      requires Valid()
      modifies this, bitmap
      ensures Valid()
      ensures r == FreeResult(old(bitmap[..]), totalFrames, phys, count)
      ensures r.Err? ==> bitmap[..] == old(bitmap[..]) && freeFrames == old(freeFrames) && nextHint == old(nextHint)
      ensures r.Ok? ==> Frames() == old(Frames()) + Run(phys / PAGE, count) && old(Frames()) !! Run(phys / PAGE, count)
      ensures r.Ok? ==> nextHint == if count > 0 && phys / PAGE / 64 < old(nextHint) then phys / PAGE / 64
                                    else old(nextHint)
    {
      hide Clear, Used;
      if count == 0 {
        assert Run(phys / PAGE, count) == {};
        return Ok(());
      }
      if phys % PAGE != 0 { return Err(Unaligned); }
      var first := phys / PAGE;
      var end := first + count;
      if end > totalFrames { return Err(OutOfRange); }
      ghost var bm := bitmap[..];
      var f := first;
      while f < end
        invariant first <= f <= end && UsedRun(bm, first, f)
        invariant bitmap[..] == bm && freeFrames == old(freeFrames) && nextHint == old(nextHint)
      {
        UsedIsTest(bm, f);
        if !TestBit(bitmap[..], f) { return Err(NotAllocated); }
        f := f + 1;
      }
      UsedRunClear(bm, first, count);
      RunSize(first, count);
      PutIn(Clear(bm), Run(first, count));
      FillRange(bitmap, first, count, false);
      FilledFree(bm, bitmap[..], first, count);
      FilledPastEnd(bm, bitmap[..], first, end, false, totalFrames);
      freeFrames := freeFrames + count;
      nextHint := if first / 64 < nextHint then first / 64 else nextHint;
      return Ok(());
    }
  }

  ghost predicate UsedRun(bm: seq<Word64>, a: nat, b: nat) { forall i: nat | a <= i < b :: Used(bm, i) }

  /** What a request to free is answered: it must be aligned, inside the managed memory and all in use. */
  ghost function FreeResult(bm: seq<Word64>, total: nat, phys: nat, count: nat): Result<(), FreeError>
  {
    if count == 0 then Ok(())
    else if phys % PAGE != 0 then Err(Unaligned)
    else if phys / PAGE + count > total then Err(OutOfRange)
    else if UsedRun(bm, phys / PAGE, phys / PAGE + count) then Ok(())
    else Err(NotAllocated)
  }

  lemma UsedIsTest(bm: seq<Word64>, f: nat)
    requires f / 64 < |bm|
    ensures TestBit(bm, f) <==> Used(bm, f)
  {
  }

  lemma UsedRunClear(bm: seq<Word64>, a: nat, n: nat)
    requires UsedRun(bm, a, a + n)
    ensures Run(a, n) !! Clear(bm)
  {
  }

  lemma InUseBelow(bm: seq<Word64>, f: nat, total: nat)
    requires PastEnd(bm, total) && f < 64 * |bm| && !Used(bm, f)
    ensures f < total
  {
  }

  predicate TestBit(bm: seq<Word64>, i: nat)
    requires i / 64 < |bm|
  {
    bm[i / 64][i % 64]
  }

  lemma PastEndKept(bm: seq<Word64>, bm': seq<Word64>, total: nat)
    requires PastEnd(bm, total) && |bm'| == |bm| && forall i: nat | i / 64 < |bm| && Used(bm, i) :: Used(bm', i)
    ensures PastEnd(bm', total)
  {
  }

  lemma FilledPastEnd(bm: seq<Word64>, bm': seq<Word64>, a: nat, b: nat, used: bool, total: nat)
    requires PastEnd(bm, total) && Filled(bm, bm', a, b, used) && (used || b <= total)
    ensures PastEnd(bm', total)
  {
  }

  // -------------------------------------------------------- searching a run

  /** The last `run` frames before `frame` are free, fewer than `count`, and no more can be added in front. */
  ghost predicate Tail(bm: seq<Word64>, frame: nat, run: nat, count: nat)
  {
    run <= frame && run < count && FreeRun(bm, frame - run, run) && (frame - run > 0 ==> Used(bm, frame - run - 1))
  }

  ghost predicate NoRunBefore(bm: seq<Word64>, frame: nat, count: nat)
  {
    forall a: nat | a + count <= frame :: !FreeRun(bm, a, count)
  }

  lemma Nowhere(bm: seq<Word64>, count: nat)
    requires count > 0
    ensures Tail(bm, 0, 0, count) && NoRunBefore(bm, 0, count)
  {
  }

  lemma UsedInside(bm: seq<Word64>, a: nat, n: nat, i: nat)
    requires a <= i < a + n && Used(bm, i)
    ensures !FreeRun(bm, a, n)
  {
  }

  lemma SkipWord(bm: seq<Word64>, frame: nat, run: nat, count: nat)
    requires Tail(bm, frame, run, count) && NoRunBefore(bm, frame, count) && frame % 64 == 0
    requires frame / 64 < |bm| && bm[frame / 64] == Ones()
    ensures Tail(bm, frame + 64, 0, count) && NoRunBefore(bm, frame + 64, count)
  {
    forall i: nat | frame <= i < frame + 64 ensures Used(bm, i) {
      assert i / 64 == frame / 64;
    }
    hide Used, FreeRun;
    forall a: nat | a + count <= frame + 64 ensures !FreeRun(bm, a, count) {
      if a + count > frame {
        UsedInside(bm, a, count, a + count - 1);
      }
    }
    NoFrames(bm, frame + 64);
  }

  lemma NoFrames(bm: seq<Word64>, a: nat)
    ensures FreeRun(bm, a, 0)
  {
  }

  lemma TestFrame(bm: seq<Word64>, frame: nat, run: nat, count: nat)
    requires Tail(bm, frame, run, count) && NoRunBefore(bm, frame, count) && frame / 64 < |bm|
    ensures TestBit(bm, frame) ==> Tail(bm, frame + 1, 0, count) && NoRunBefore(bm, frame + 1, count)
    ensures !TestBit(bm, frame) ==> FreeRun(bm, frame - run, run + 1)
    ensures !TestBit(bm, frame) && run + 1 < count ==>
              Tail(bm, frame + 1, run + 1, count)
              && NoRunBefore(bm, frame + 1, count)
  {
  }

  lemma FoundRun(bm: seq<Word64>, start: nat, frame: nat, count: nat)
    requires NoRunBefore(bm, frame, count) && start + count == frame + 1
    ensures forall a: nat | a < start :: !FreeRun(bm, a, count)
  {
  }

  lemma NoRun(bm: seq<Word64>, frame: nat, count: nat, total: nat)
    requires NoRunBefore(bm, frame, count) && total <= frame
    ensures forall a: nat | a + count <= total :: !FreeRun(bm, a, count)
  {
  }

  lemma TooMany(bm: seq<Word64>, count: nat)
    requires count > |Clear(bm)|
    ensures forall a: nat :: !FreeRun(bm, a, count)
  {
    hide Clear, FreeRun;
    forall a: nat ensures !FreeRun(bm, a, count) {
      if FreeRun(bm, a, count) {
        FreeRunClear(bm, a, count);
        RunSize(a, count);
        TakeOut(Clear(bm), Run(a, count));
        assert false;
      }
    }
  }

  ghost predicate FullAt(bm: seq<Word64>, hint: nat, m: nat) { |bm| > 0 ==> bm[Rem(hint + m, |bm|)] == Ones() }

  lemma AllFull(bm: seq<Word64>, hint: nat)
    requires |bm| > 0 && forall m | 0 <= m < |bm| :: FullAt(bm, hint, m)
    ensures Clear(bm) == {}
  {
    forall i: nat | 0 <= i < 64 * |bm| ensures Used(bm, i) {
      ComesPast(hint, |bm|, i / 64);
      assert FullAt(bm, hint, StepTo(hint, |bm|, i / 64));
    }
  }

  /** The words passed before `n` have no free frame. */
  lemma PassedFull(bm: seq<Word64>, hint: nat, n: nat, x: nat)
    requires x in Clear(bm) && forall m | 0 <= m < n :: FullAt(bm, hint, m)
    ensures StepTo(hint, |bm|, x / 64) >= n
  {
    ComesPast(hint, |bm|, x / 64);
    assert StepTo(hint, |bm|, x / 64) < n ==> FullAt(bm, hint, StepTo(hint, |bm|, x / 64));
  }

  lemma FirstFit(bm: seq<Word64>, hint: nat, n: nat, f: nat)
    requires n < |bm| && f in Clear(bm) && f / 64 == Rem(hint + n, |bm|)
    requires forall m | 0 <= m < n :: FullAt(bm, hint, m)
    requires forall x | x in Clear(bm) && x / 64 == f / 64 :: f <= x
    ensures NextFit(Clear(bm), hint, |bm|, f)
  {
    hide Clear, FullAt, Rem, StepTo;
    StepOf(hint, |bm|, n);
    forall x | x in Clear(bm) && x / 64 < |bm| ensures StepTo(hint, |bm|, f / 64) <= StepTo(hint, |bm|, x / 64) {
      PassedFull(bm, hint, n, x);
    }
  }

  lemma LowestOf(bm: seq<Word64>, w: nat, bit: nat)
    requires w < |bm| && bit < 64 && forall j | 0 <= j < bit :: bm[w][j]
    ensures (w * 64 + bit) / 64 == w && forall x | x in Clear(bm) && x / 64 == w :: w * 64 + bit <= x
  {
  }

  lemma AllocBit(bm: seq<Word64>, w: nat, bit: nat)
    requires w < |bm| && bit < 64 && !bm[w][bit]
    ensures var bm' := bm[w := WithBit(bm[w], bit, true)]; var f := w * 64 + bit;
            f in Clear(bm) && Clear(bm') == Clear(bm) - {f} && |Clear(bm')| == |Clear(bm)| - 1 && !Used(bm, f)
    ensures forall i: nat | i / 64 < |bm| && Used(bm, i) :: Used(bm[w := WithBit(bm[w], bit, true)], i)
  {
    var f := w * 64 + bit;
    assert f / 64 == w && f % 64 == bit;
    var bm' := bm[w := WithBit(bm[w], bit, true)];
    forall i: nat | i / 64 < |bm| ensures Used(bm', i) <==> i == f || Used(bm, i) {
      SetWord(bm, f, true, i);
    }
    TakeOut(Clear(bm), {f});
  }

  // ------------------------------------------------------------------ set-up

  datatype Kind = Usable | BootloaderReclaimable | Other

  datatype Region = Region(base: nat, len: nat, kind: Kind)

  function Max(a: nat, b: nat): nat { if a < b then b else a }

  /** First and end frame of the part of a region that may be allocated. */
  function StartFrame(r: Region): nat { (Max(r.base, MIN_ALLOC_ADDR) + PAGE - 1) / PAGE }

  function EndFrame(r: Region): nat { (r.base + r.len) / PAGE }

  predicate Offers(r: Region) { r.kind == Usable && EndFrame(r) > StartFrame(r) }

  ghost function FramesOf(r: Region): set<nat>
  {
    if Offers(r) then Run(StartFrame(r), EndFrame(r) - StartFrame(r)) else {}
  }

  /** The frames that the usable regions offer. */
  ghost function Offered(rs: seq<Region>): set<nat>
  {
    if rs == [] then {} else Offered(rs[..|rs| - 1]) + FramesOf(rs[|rs| - 1])
  }

  ghost predicate Disjoint(rs: seq<Region>)
  {
    forall i, j | 0 <= i < j < |rs| :: FramesOf(rs[i]) !! FramesOf(rs[j])
  }

  /** The highest address that can ever become free. */
  function Highest(rs: seq<Region>): nat
  {
    if rs == [] then 0
    else
      var r := rs[|rs| - 1];
      if r.kind == Other then Highest(rs[..|rs| - 1]) else Max(Highest(rs[..|rs| - 1]), r.base + r.len)
  }

  lemma OfferedNext(rs: seq<Region>, i: nat)
    requires i < |rs| && Disjoint(rs)
    ensures Offered(rs[..i + 1]) == Offered(rs[..i]) + FramesOf(rs[i])
    ensures Offered(rs[..i]) !! FramesOf(rs[i])
    ensures |Offered(rs[..i + 1])| == |Offered(rs[..i])| + |FramesOf(rs[i])|
  {
    hide FramesOf;
    assert rs[..i + 1][..i] == rs[..i];
    OfferedApart(rs, i, i);
    PutIn(Offered(rs[..i]), FramesOf(rs[i]));
  }

  lemma {:induction false} OfferedApart(rs: seq<Region>, n: nat, i: nat)
    requires n <= i < |rs| && Disjoint(rs)
    ensures Offered(rs[..n]) !! FramesOf(rs[i])
  {
    hide FramesOf;
    if n > 0 {
      OfferedApart(rs, n - 1, i);
      assert rs[..n][..n - 1] == rs[..n - 1];
      assert FramesOf(rs[n - 1]) !! FramesOf(rs[i]);
    }
  }

  lemma {:induction false} OfferedHas(rs: seq<Region>, n: nat, i: nat)
    requires i < n <= |rs|
    ensures FramesOf(rs[i]) <= Offered(rs[..n])
  {
    hide FramesOf;
    assert rs[..n][..n - 1] == rs[..n - 1];
    if i < n - 1 {
      OfferedHas(rs, n - 1, i);
    }
  }

  /** Frame `f` lies as a whole in a usable region and not below 1 MiB. */
  ghost predicate Allocatable(rs: seq<Region>, f: nat)
  {
    0x10_0000 <= f * 0x1000 &&
    exists i :: 0 <= i < |rs| && rs[i].kind == Usable && rs[i].base <= f * 0x1000
                && f * 0x1000 + 0x1000 <= rs[i].base + rs[i].len
  }

  lemma FramesOfIff(r: Region, f: nat)
    ensures f in FramesOf(r) <==>
            r.kind == Usable && 0x10_0000 <= f * 0x1000 && r.base <= f * 0x1000 && f * 0x1000 + 0x1000 <= r.base + r.len
  {
  }

  lemma {:induction false} OfferedFrom(rs: seq<Region>, f: nat)
    requires f in Offered(rs)
    ensures exists i :: 0 <= i < |rs| && f in FramesOf(rs[i])
  {
    hide FramesOf;
    var n := |rs| - 1;
    if f in FramesOf(rs[n]) {
      assert 0 <= n < |rs|;
    } else {
      OfferedFrom(rs[..n], f);
      var i :| 0 <= i < n && f in FramesOf(rs[..n][i]);
      assert rs[..n][i] == rs[i];
    }
  }

  /** The frames offered are exactly the whole usable ones. */
  lemma OfferedIff(rs: seq<Region>, f: nat)
    ensures f in Offered(rs) <==> Allocatable(rs, f)
  {
    hide FramesOf, Offered;
    if f in Offered(rs) {
      OfferedFrom(rs, f);
      var i :| 0 <= i < |rs| && f in FramesOf(rs[i]);
      FramesOfIff(rs[i], f);
    }
    if Allocatable(rs, f) {
      var i :| 0 <= i < |rs| && rs[i].kind == Usable && rs[i].base <= f * 0x1000
               && f * 0x1000 + 0x1000 <= rs[i].base + rs[i].len;
      FramesOfIff(rs[i], f);
      OfferedHas(rs, |rs|, i);
      assert rs[..|rs|] == rs;
    }
  }

  /** One bit for each frame below the end of memory that is or may become usable, in whole words and pages. */
  lemma BitmapSize(rs: seq<Region>)
    ensures var end, n := Highest(rs), BitmapFrames(Highest(rs) / PAGE);
            && (forall i | 0 <= i < |rs| && rs[i].kind != Other :: rs[i].base + rs[i].len <= end)
            && (end > 0 ==> exists i :: 0 <= i < |rs| && rs[i].kind != Other && rs[i].base + rs[i].len == end)
            && n * 0x1000 * 8 >= end / 0x1000 && (n > 0 ==> (n - 1) * 0x1000 * 8 < end / 0x1000)
  {
    hide Highest;
    forall i | 0 <= i < |rs| && rs[i].kind != Other ensures rs[i].base + rs[i].len <= Highest(rs) {
      HighestBound(rs, i);
    }
    if Highest(rs) > 0 {
      var i := HighestFrom(rs);
    }
  }

  lemma {:induction false} HighestFrom(rs: seq<Region>) returns (i: nat)
    requires Highest(rs) > 0
    ensures i < |rs| && rs[i].kind != Other && rs[i].base + rs[i].len == Highest(rs)
  {
    i := |rs| - 1;
    if rs[i].kind == Other || rs[i].base + rs[i].len < Highest(rs) {
      i := HighestFrom(rs[..|rs| - 1]);
    }
  }

  lemma FullBitmap(bm: seq<Word64>, total: nat)
    requires forall i | 0 <= i < |bm| :: bm[i] == Ones()
    ensures Clear(bm) == {} && PastEnd(bm, total)
  {
  }

  lemma RegionBelow(rs: seq<Region>, i: nat)
    requires i < |rs| && rs[i].kind == Usable
    ensures EndFrame(rs[i]) <= Highest(rs) / PAGE
  {
  }

  lemma {:induction false} HighestBound(rs: seq<Region>, i: nat)
    requires i < |rs| && rs[i].kind != Other
    ensures rs[i].base + rs[i].len <= Highest(rs)
    decreases |rs|
  {
    if i < |rs| - 1 {
      assert rs[..|rs| - 1][i] == rs[i];
      HighestBound(rs[..|rs| - 1], i);
    }
  }

  /** Frames that the bitmap of `total` frames occupies. */
  function BitmapFrames(total: nat): nat { ((total + 63) / 64 * 8 + PAGE - 1) / PAGE }

  predicate Holds(r: Region, n: nat) { Offers(r) && EndFrame(r) - StartFrame(r) >= n }

  /** The first region that can hold the bitmap. */
  method FindRegion(rs: seq<Region>, n: nat) returns (i: nat)
    ensures i <= |rs| && (i < |rs| ==> Holds(rs[i], n))
    ensures forall j | 0 <= j < i :: !Holds(rs[j], n)
  {
    i := 0;
    while i < |rs| && !Holds(rs[i], n)
      invariant i <= |rs| && forall j | 0 <= j < i :: !Holds(rs[j], n)
    {
      i := i + 1;
    }
  }

  /** Clear a run of bits that are all set. */
  method OfferRun(pmm: Pmm, start: nat, n: nat)
    requires pmm.Valid() && start + n <= pmm.totalFrames && pmm.Frames() !! Run(start, n)
    modifies pmm, pmm.bitmap
    ensures pmm.Valid() && pmm.Frames() == old(pmm.Frames()) + Run(start, n) && pmm.nextHint == old(pmm.nextHint)
  {
    hide Clear, PastEnd;
    ghost var bm := pmm.bitmap[..];
    RunSize(start, n);
    PutIn(Clear(bm), Run(start, n));
    FillRange(pmm.bitmap, start, n, false);
    FilledFree(bm, pmm.bitmap[..], start, n);
    FilledPastEnd(bm, pmm.bitmap[..], start, start + n, false, pmm.totalFrames);
    pmm.freeFrames := pmm.freeFrames + n;
  }

  /** Clear the bits of every usable region. */
  method OfferRegions(pmm: Pmm, rs: seq<Region>)
    requires Disjoint(rs) && pmm.totalFrames == Highest(rs) / PAGE && pmm.freeFrames == 0
    requires pmm.bitmap.Length == (pmm.totalFrames + 63) / 64 && forall i | 0 <= i < pmm.bitmap.Length ::
             pmm.bitmap[i] == Ones()
    modifies pmm, pmm.bitmap
    ensures pmm.Valid() && pmm.Frames() == Offered(rs) && pmm.nextHint == old(pmm.nextHint)
  {
    hide Clear, Offered, Highest, PastEnd, StartFrame, EndFrame;
    FullBitmap(pmm.bitmap[..], pmm.totalFrames);
    NothingOffered();
    var i := 0;
    while i < |rs|
      invariant 0 <= i <= |rs| && pmm.nextHint == old(pmm.nextHint)
      invariant pmm.Valid() && pmm.Frames() == Offered(rs[..i])
    {
      OfferedNext(rs, i);
      var r := rs[i];
      if Offers(r) {
        RegionBelow(rs, i);
        OfferRun(pmm, StartFrame(r), EndFrame(r) - StartFrame(r));
      }
      i := i + 1;
    }
    assert rs[..i] == rs;
  }

  lemma NothingOffered()
    ensures Offered([]) == {}
  {
  }

  /** Set up the allocator from the memory map. The bitmap itself sits in the first usable region that can
      hold it, at `at`. */
  method Init(rs: seq<Region>) returns (r: Option<Pmm>, at: nat)
    requires Disjoint(rs)
    ensures r.None? <==> Highest(rs) == 0 || forall i | 0 <= i < |rs| :: !Holds(rs[i], BitmapFrames(Highest(rs) / PAGE))
    ensures r.Some? ==> && r.value.Valid() && fresh(r.value) && fresh(r.value.bitmap)
                        && Run(at, BitmapFrames(Highest(rs) / PAGE)) <= Offered(rs)
                        && r.value.Frames() == Offered(rs) - Run(at, BitmapFrames(Highest(rs) / PAGE))
    ensures r.Some? ==>
              forall f: nat :: f in r.value.Frames() <==>
                Allocatable(rs, f) && !(at <= f < at + BitmapFrames(Highest(rs) / PAGE))
  {
    hide Clear, Offered, Highest, Holds, Disjoint, Allocatable;
    forall f: nat ensures f in Offered(rs) <==> Allocatable(rs, f) {
      OfferedIff(rs, f);
    }
    at := 0;
    var highest := Highest(rs);
    if highest == 0 { return None, 0; }
    var total := highest / PAGE;
    var words := (total + 63) / 64;
    var n := BitmapFrames(total);
    var i := FindRegion(rs, n);
    if i == |rs| { return None, 0; }
    at := StartFrame(rs[i]);
    HoldsRun(rs, i, n);
    var pmm := new Pmm(words, total);
    OfferRegions(pmm, rs);
    ghost var bm := pmm.bitmap[..];
    RunSize(at, n);
    TakeOut(Clear(bm), Run(at, n));
    RegionBelow(rs, i);
    FillRange(pmm.bitmap, at, n, true);
    FilledUsed(bm, pmm.bitmap[..], at, n);
    FilledPastEnd(bm, pmm.bitmap[..], at, at + n, true, total);
    pmm.freeFrames := pmm.freeFrames - n;
    return Some(pmm), at;
  }

  lemma HoldsRun(rs: seq<Region>, i: nat, n: nat)
    requires i < |rs| && Holds(rs[i], n)
    ensures Run(StartFrame(rs[i]), n) <= Offered(rs) && rs[i].kind == Usable && StartFrame(rs[i]) + n <= EndFrame(rs[i])
  {
  }
}
