/** The initial stack of a process (System V AMD64 ABI, section 3.4.1), written into its top page. */
module InitialStack {
  import opened Wrappers
  import opened Bytes

  const PAGE: nat := 0x1000
  const USER_STACK_TOP: nat := 0x7fff_ffff_f000
  const BASE: nat := 0x7fff_ffff_e000
  const MAX_STRING: nat := 255

  type Str = seq<Byte>

  // -------------------------------------------------------------- the layout

  /** Bytes that the strings from `k` on take, each with its terminator. */
  function Span(values: seq<Str>, k: nat): nat
    decreases |values| - k
  {
    if k >= |values| then 0 else |values[k]| + 1 + Span(values, k + 1)
  }

  /** Where string `k` starts when the last one ends at `top`. */
  function StartOf(values: seq<Str>, k: nat, top: nat): int { top - Span(values, k) }

  lemma {:induction false} SpanMonotone(values: seq<Str>, i: nat, k: nat)
    requires i <= k <= |values|
    ensures Span(values, k) <= Span(values, i)
    ensures i < k ==> Span(values, i) >= Span(values, k) + |values[i]| + 1
    decreases k - i
  {
    if i < k {
      SpanMonotone(values, i + 1, k);
    }
  }

  /** The string `s`, then a zero, at offset `at` of the page. */
  ghost predicate Holds(page: seq<Byte>, at: int, s: Str)
  {
    0 <= at && at + |s| < |page| && page[at..at + |s|] == s && page[at + |s|] == 0
  }

  /** The strings from `k` on are in place. */
  ghost predicate Placed(page: seq<Byte>, values: seq<Str>, k: nat, top: nat)
  {
    forall i | k <= i < |values| :: Holds(page, StartOf(values, i, top) - BASE, values[i])
  }

  ghost predicate ZeroBelow(page: seq<Byte>, n: int) { forall i | 0 <= i < |page| && i < n :: page[i] == 0 }

  /** Only bytes below `n` differ. */
  ghost predicate KeptFrom(page: seq<Byte>, page': seq<Byte>, n: int)
  {
    |page'| == |page| && forall i | 0 <= i < |page| && n <= i :: page'[i] == page[i]
  }

  lemma HoldsKept(page: seq<Byte>, page': seq<Byte>, n: int, at: int, s: Str)
    requires Holds(page, at, s) && KeptFrom(page, page', n) && n <= at
    ensures Holds(page', at, s)
  {
  }

  lemma PlacedKept(page: seq<Byte>, page': seq<Byte>, values: seq<Str>, k: nat, top: nat)
    requires Placed(page, values, k, top) && k <= |values| && KeptFrom(page, page', StartOf(values, k, top) - BASE)
    ensures Placed(page', values, k, top)
  {
    forall i | k <= i < |values| ensures Holds(page', StartOf(values, i, top) - BASE, values[i]) {
      SpanMonotone(values, k, i);
      HoldsKept(page, page', StartOf(values, k, top) - BASE, StartOf(values, i, top) - BASE, values[i]);
    }
  }

  /** One more string, just below the others. */
  lemma PlaceOne(page: seq<Byte>, values: seq<Str>, k: nat, top: nat)
    requires |page| == PAGE && k < |values| && top <= USER_STACK_TOP && StartOf(values, k, top) >= BASE
    requires Placed(page, values, k + 1, top) && ZeroBelow(page, StartOf(values, k + 1, top) - BASE)
    ensures var at := StartOf(values, k, top) - BASE;
            && 0 <= at && at + |values[k]| < PAGE
            && var page' := Splice(page, at, values[k]);
               Placed(page', values, k, top) && ZeroBelow(page', at)
                 && KeptFrom(page, page', StartOf(values, k + 1, top) - BASE)
  {
    var at := StartOf(values, k, top) - BASE;
    SpanNat(values, k + 1);
    var page' := Splice(page, at, values[k]);
    assert KeptFrom(page, page', StartOf(values, k + 1, top) - BASE);
    PlacedKept(page, page', values, k + 1, top);
    assert page'[at..at + |values[k]|] == values[k];
    assert Holds(page', at, values[k]);
    forall i | k <= i < |values| ensures Holds(page', StartOf(values, i, top) - BASE, values[i]) {
      if i != k {
        assert Holds(page', StartOf(values, i, top) - BASE, values[i]);
      }
    }
  }

  lemma SpanNat(values: seq<Str>, k: nat)
    ensures Span(values, k) >= 0
  {
  }

  /** All strings are short enough and end up in the page. */
  ghost predicate StringsFit(values: seq<Str>, top: nat)
  {
    ShortFrom(values, 0) && StartOf(values, 0, top) >= BASE
  }

  lemma KeptTrans(a: seq<Byte>, b: seq<Byte>, c: seq<Byte>, n: int, m: int)
    requires KeptFrom(a, b, n) && KeptFrom(b, c, m) && m <= n
    ensures KeptFrom(a, c, n)
  {
  }

  /** The pointers to the strings from `k` on. */
  ghost predicate Pointing(ptrs: seq<nat>, values: seq<Str>, k: nat, top: nat)
  {
    |ptrs| + k == |values| && forall i | 0 <= i < |ptrs| :: ptrs[i] == StartOf(values, k + i, top)
  }

  lemma PointingMore(ptrs: seq<nat>, values: seq<Str>, k: nat, top: nat, p: nat)
    requires Pointing(ptrs, values, k + 1, top) && k < |values| && p == StartOf(values, k, top)
    ensures Pointing([p] + ptrs, values, k, top)
  {
  }

  /** Strings from `k` on are short enough. */
  ghost predicate ShortFrom(values: seq<Str>, k: nat) { forall i | k <= i < |values| :: |values[i]| <= MAX_STRING }

  /** Write the strings from the last to the first, downward from `top`. */
  method PutStrings(page: array<Byte>, values: seq<Str>, top: nat) returns (r: Option<(nat, seq<nat>)>)
    requires page.Length == PAGE && BASE <= top <= USER_STACK_TOP && ZeroBelow(page[..], top - BASE)
    modifies page
    ensures r.Some? <==> StringsFit(values, top)
    ensures r.Some? ==> var (cursor, ptrs) := r.value;
                        && cursor == StartOf(values, 0, top) && BASE <= cursor <= top && Pointing(ptrs, values, 0, top)
                        && Placed(page[..], values, 0, top) && ZeroBelow(page[..], cursor - BASE)
                           && KeptFrom(old(page[..]), page[..], top - BASE)
  {
    hide Placed, ZeroBelow, KeptFrom, Span, Pointing, ShortFrom, Splice;
    var cursor: nat := top;
    var ptrs: seq<nat> := [];
    var k := |values|;
    StartEmpty(page[..], values, top);
    while k > 0
      invariant 0 <= k <= |values| && cursor == StartOf(values, k, top) && BASE <= cursor <= top
      invariant Pointing(ptrs, values, k, top) && ShortFrom(values, k)
      invariant Placed(page[..], values, k, top) && ZeroBelow(page[..], cursor - BASE)
                && KeptFrom(old(page[..]), page[..], top - BASE)
    {
      var bytes := values[k - 1];
      SpanNext(values, k - 1);
      ShortNext(values, k - 1, top);
      if |bytes| > MAX_STRING { return None; }
      if cursor < |bytes| + 1 + BASE { return None; }
      ghost var before := page[..];
      PlaceOne(before, values, k - 1, top);
      cursor := cursor - (|bytes| + 1);
      WriteBytes(page, cursor, bytes);
      KeptTrans(old(page[..]), before, page[..], top - BASE, StartOf(values, k, top) - BASE);
      PointingMore(ptrs, values, k - 1, top, cursor);
      ptrs := [cursor] + ptrs;
      k := k - 1;
    }
    return Some((cursor, ptrs));
  }

  /** What the checks on string `k` decide. */
  lemma ShortNext(values: seq<Str>, k: nat, top: nat)
    requires k < |values| && ShortFrom(values, k + 1)
    ensures ShortFrom(values, k) <==> |values[k]| <= MAX_STRING
    ensures StringsFit(values, top) ==> |values[k]| <= MAX_STRING && StartOf(values, k, top) >= BASE
  {
    SpanMonotone(values, 0, k);
    hide Span;
    assert values[k..] == [values[k]] + values[k + 1..];
  }

  lemma SpanNext(values: seq<Str>, k: nat)
    requires k < |values|
    ensures Span(values, k) == |values[k]| + 1 + Span(values, k + 1)
  {
  }

  lemma StartEmpty(page: seq<Byte>, values: seq<Str>, top: nat)
    ensures Placed(page, values, |values|, top) && KeptFrom(page, page, top - BASE) && Span(values, |values|) == 0
    ensures Pointing([], values, |values|, top) && ShortFrom(values, |values|)
  {
  }

  /** Copy bytes into the page through the direct map. */
  method WriteBytes(page: array<Byte>, virt: nat, bytes: seq<Byte>)
    requires page.Length == PAGE && BASE <= virt && virt - BASE + |bytes| <= PAGE
    modifies page
    ensures page[..] == Splice(old(page[..]), virt - BASE, bytes)
  {
    var off := virt - BASE;
    forall i | 0 <= i < |bytes| { page[off + i] := bytes[i]; }
    assert page[..] == Splice(old(page[..]), off, bytes);
  }

  // --------------------------------------------------------------- the words

  function Words(argv: seq<nat>, env: seq<nat>): seq<nat> { [|argv|] + argv + [0] + env + [0, 0, 0] }

  /** The words are in the page from offset `at` on. */
  ghost predicate WordsAt(page: seq<Byte>, at: nat, words: seq<nat>)
  {
    at + 8 * |words| <= |page| && forall i | 0 <= i < |words| :: U64(page, at + 8 * i) == words[i]
  }

  lemma WordOne(page: seq<Byte>, at: nat, words: seq<nat>, i: nat)
    requires |page| == PAGE && at + 8 * |words| <= PAGE && i < |words| && words[i] < 0x1_0000_0000_0000_0000
    requires WordsAt(page, at, words[..i])
    ensures var page' := Splice(page, at + 8 * i, Le64(words[i]));
            WordsAt(page', at, words[..i + 1]) && KeptFrom(page, page', at + 8 * (i + 1))
  {
    hide U64, Le64;
    var page' := Splice(page, at + 8 * i, Le64(words[i]));
    forall j | 0 <= j < i + 1 ensures U64(page', at + 8 * j) == words[j] {
      U64Slice(page', at + 8 * j);
      if j < i {
        U64Slice(page, at + 8 * j);
        assert page'[at + 8 * j..at + 8 * j + 8] == page[at + 8 * j..at + 8 * j + 8];
        assert U64(page, at + 8 * j) == words[..i][j];
      } else {
        assert page'[at + 8 * i..at + 8 * i + 8] == Le64(words[i]);
      }
    }
  }

  method PutWords(page: array<Byte>, sp: nat, words: seq<nat>)
    requires page.Length == PAGE && BASE <= sp && sp - BASE + 8 * |words| <= PAGE
    requires forall i | 0 <= i < |words| :: words[i] < 0x1_0000_0000_0000_0000
    modifies page
    ensures WordsAt(page[..], sp - BASE, words) && KeptFrom(old(page[..]), page[..], sp - BASE + 8 * |words|)
  {
    hide U64, Le64, WordsAt, KeptFrom;
    NoWords(page[..], sp - BASE);
    var i := 0;
    KeptSelf(page[..], sp - BASE + 8 * |words|);
    while i < |words|
      invariant 0 <= i <= |words| && WordsAt(page[..], sp - BASE, words[..i])
      invariant KeptFrom(old(page[..]), page[..], sp - BASE + 8 * |words|)
    {
      ghost var before := page[..];
      WordOne(before, sp - BASE, words, i);
      WriteBytes(page, sp + i * 8, Le64(words[i]));
      KeptMore(before, page[..], sp - BASE + 8 * (i + 1), sp - BASE + 8 * |words|);
      KeptTrans(old(page[..]), before, page[..], sp - BASE + 8 * |words|, sp - BASE + 8 * |words|);
      i := i + 1;
    }
    assert words[..i] == words;
  }

  lemma NoWords(page: seq<Byte>, at: nat)
    requires at <= |page|
    ensures WordsAt(page, at, [])
  {
  }

  lemma KeptSelf(page: seq<Byte>, n: int)
    ensures KeptFrom(page, page, n)
  {
  }

  lemma KeptMore(a: seq<Byte>, b: seq<Byte>, n: int, m: int)
    requires KeptFrom(a, b, n) && n <= m
    ensures KeptFrom(a, b, m)
  {
  }

  // ------------------------------------------------------------- build_stack

  /** Stack pointer for these arguments: below the strings and the words, on a 16-byte boundary. */
  function StackPointer(argv: seq<Str>, env: seq<Str>): int
  {
    (USER_STACK_TOP - Span(argv, 0) - Span(env, 0) - 8 * (|argv| + |env| + 5)) / 16 * 16
  }

  /** No string is too long, and everything fits into the page. */
  ghost predicate Fits(argv: seq<Str>, env: seq<Str>)
  {
    && ShortFrom(argv, 0) && ShortFrom(env, 0)
    && StackPointer(argv, env) >= BASE
  }

  function Ptrs(values: seq<Str>, top: nat): (r: seq<nat>)
    ensures |r| == |values|
  {
    seq(|values|, i requires 0 <= i < |values| => if StartOf(values, i, top) >= 0 then StartOf(values, i, top) else 0)
  }

  /** The finished page: words at the stack pointer, strings above them. */
  ghost predicate StackOk(page: seq<Byte>, sp: nat, argv: seq<Str>, env: seq<Str>)
  {
    var envTop := StartOf(argv, 0, USER_STACK_TOP);
    && |page| == PAGE && BASE <= envTop && sp >= BASE && sp % 16 == 0
    && WordsAt(page, sp - BASE, Words(Ptrs(argv, USER_STACK_TOP), Ptrs(env, envTop)))
    && Placed(page, argv, 0, USER_STACK_TOP) && Placed(page, env, 0, envTop)
    && sp + 8 * (|argv| + |env| + 5) <= StartOf(env, 0, envTop) && StartOf(env, 0, envTop) >= BASE
  }

  lemma PtrsAre(values: seq<Str>, top: nat, ptrs: seq<nat>)
    requires Pointing(ptrs, values, 0, top)
    ensures ptrs == Ptrs(values, top)
  {
  }

  lemma SmallWords(values: seq<Str>, top: nat)
    requires BASE <= StartOf(values, 0, top) && top <= USER_STACK_TOP
    ensures forall i | 0 <= i < |values| ::
              BASE <= Ptrs(values, top)[i] < top
              && Ptrs(values, top)[i] == StartOf(values, i, top)
  {
    forall i | 0 <= i < |values| ensures BASE <= StartOf(values, i, top) < top {
      SpanMonotone(values, 0, i);
    }
  }

  lemma WordsSmall(a: seq<nat>, e: seq<nat>)
    requires |a| < 0x1_0000_0000_0000_0000
    requires (forall i | 0 <= i < |a| :: a[i] < 0x1_0000_0000_0000_0000)
             && (forall i | 0 <= i < |e| :: e[i] < 0x1_0000_0000_0000_0000)
    ensures forall i | 0 <= i < |Words(a, e)| :: Words(a, e)[i] < 0x1_0000_0000_0000_0000
  {
  }

  lemma {:induction false} CountBelowSpan(values: seq<Str>, k: nat)
    requires k <= |values|
    ensures |values| - k <= Span(values, k)
    decreases |values| - k
  {
    if k < |values| {
      CountBelowSpan(values, k + 1);
    }
  }

  /** Lay out arguments and environment in the zeroed top page of the stack. */
  method BuildStack(page: array<Byte>, argv: seq<Str>, env: seq<Str>) returns (r: Option<nat>)
    requires page.Length == PAGE && ZeroBelow(page[..], PAGE)
    modifies page
    ensures r.Some? <==> Fits(argv, env)
    ensures r.Some? ==> r.value == StackPointer(argv, env) && StackOk(page[..], r.value, argv, env)
  {
    hide Placed, ZeroBelow, KeptFrom, WordsAt, Words, Span, Ptrs, Pointing, ShortFrom;
    var a := PutStrings(page, argv, USER_STACK_TOP);
    CountBelowSpan(argv, 0);
    CountBelowSpan(env, 0);
    if a.None? { return None; }
    var (top, argvPtrs) := a.value;
    ghost var page1 := page[..];
    var e := PutStrings(page, env, top);
    if e.None? { return None; }
    var (cursor, envPtrs) := e.value;
    ghost var page2 := page[..];
    PlacedKept(page1, page2, argv, 0, USER_STACK_TOP);
    PtrsAre(argv, USER_STACK_TOP, argvPtrs);
    PtrsAre(env, top, envPtrs);
    SmallWords(argv, USER_STACK_TOP);
    SmallWords(env, top);
    var words := Words(argvPtrs, envPtrs);
    WordsSize(argvPtrs, envPtrs);
    WordsSmall(argvPtrs, envPtrs);
    var wordBytes := |words| * 8;
    if cursor < wordBytes { return None; }
    var sp := (cursor - wordBytes) / 16 * 16;
    if sp < BASE { return None; }
    PutWords(page, sp, words);
    KeptMore(page2, page[..], sp - BASE + 8 * |words|, cursor - BASE);
    KeptMore(page2, page[..], sp - BASE + 8 * |words|, top - BASE);
    PlacedKept(page2, page[..], argv, 0, USER_STACK_TOP);
    PlacedKept(page2, page[..], env, 0, top);
    return Some(sp);
  }

  lemma WordsSize(a: seq<nat>, e: seq<nat>)
    ensures |Words(a, e)| == |a| + |e| + 5
  {
  }

  // ------------------------------------------------------------ reading back

  predicate NulFree(s: Str) { forall i | 0 <= i < |s| :: s[i] != 0 }

  /** A C string: the bytes up to the first zero. */
  function ReadStr(page: seq<Byte>, at: nat): Str
    decreases |page| - at
  {
    if at >= |page| || page[at] == 0 then [] else [page[at]] + ReadStr(page, at + 1)
  }

  /** A stored string reads back as itself exactly if it holds no zero byte. */
  lemma {:induction false} ReadStored(page: seq<Byte>, at: nat, s: Str)
    requires Holds(page, at, s)
    ensures ReadStr(page, at) == s <==> NulFree(s)
    decreases |s|
  {
    if s != [] {
      assert page[at] == page[at..at + |s|][0] == s[0];
      if s[0] != 0 {
        var t := s[1..];
        assert page[at + 1..at + 1 + |t|] == page[at..at + |s|][1..];
        ReadStored(page, at + 1, t);
        assert s == [s[0]] + t;
        NulFreeTail(s);
        if ReadStr(page, at) == s {
          assert ReadStr(page, at)[1..] == ReadStr(page, at + 1);
        }
      }
    }
  }

  lemma NulFreeTail(s: Str)
    requires s != [] && s[0] != 0
    ensures NulFree(s) <==> NulFree(s[1..])
  {
  }

  /** The pointers from offset `at` on, up to the null pointer. */
  function ReadPtrs(page: seq<Byte>, at: nat): seq<nat>
    decreases |page| - at
  {
    if at + 8 > |page| || U64(page, at) == 0 then [] else [U64(page, at)] + ReadPtrs(page, at + 8)
  }

  lemma {:induction false} ReadPtrsAre(page: seq<Byte>, at: nat, words: seq<nat>, k: nat, n: nat)
    requires WordsAt(page, at, words) && k + n < |words| && words[k + n] == 0 && forall i | k <= i < k + n ::
             words[i] != 0
    ensures ReadPtrs(page, at + 8 * k) == words[k..k + n]
    decreases n
  {
    hide U64;
    assert U64(page, at + 8 * k) == words[k];
    if n > 0 {
      ReadPtrsAre(page, at, words, k + 1, n - 1);
      assert at + 8 * k + 8 == at + 8 * (k + 1);
      assert words[k..k + n] == [words[k]] + words[k + 1..k + n];
    }
  }

  function ReadStrs(page: seq<Byte>, ptrs: seq<nat>): seq<Str>
  {
    seq(|ptrs|, i requires 0 <= i < |ptrs| => if ptrs[i] >= BASE then ReadStr(page, ptrs[i] - BASE) else [])
  }

  /** What a program finds at its stack pointer. */
  datatype Start = Start(argc: nat, argv: seq<Str>, env: seq<Str>, auxKey: nat, auxValue: nat)

  function WordOr(page: seq<Byte>, at: nat): nat { if at + 8 <= |page| then U64(page, at) else 0 }

  function Decode(page: seq<Byte>, sp: nat): Start
    requires sp >= BASE
  {
    var at := sp - BASE;
    var args := ReadPtrs(page, at + 8);
    var envAt := at + 8 + 8 * (|args| + 1);
    var envs := ReadPtrs(page, envAt);
    var auxAt := envAt + 8 * (|envs| + 1);
    Start(WordOr(page, at), ReadStrs(page, args), ReadStrs(page, envs), WordOr(page, auxAt), WordOr(page, auxAt + 8))
  }

  ghost predicate AllNulFree(values: seq<Str>) { forall i | 0 <= i < |values| :: NulFree(values[i]) }

  lemma StringsBack(page: seq<Byte>, values: seq<Str>, top: nat)
    requires Placed(page, values, 0, top) && BASE <= StartOf(values, 0, top) && top <= USER_STACK_TOP
    ensures ReadStrs(page, Ptrs(values, top)) == values <==> AllNulFree(values)
  {
    hide NulFree, ReadStr, Span, Holds;
    var back := ReadStrs(page, Ptrs(values, top));
    SmallWords(values, top);
    forall i | 0 <= i < |values| ensures back[i] == values[i] <==> NulFree(values[i]) {
      assert Holds(page, StartOf(values, i, top) - BASE, values[i]);
      ReadStored(page, StartOf(values, i, top) - BASE, values[i]);
    }
    assert back == values <==> forall i | 0 <= i < |values| :: back[i] == values[i];
  }

  lemma WordsSlices(a: seq<nat>, e: seq<nat>)
    ensures var w := Words(a, e);
            && |w| == |a| + |e| + 5 && w[0] == |a| && w[1..1 + |a|] == a && w[1 + |a|] == 0
            && w[2 + |a|..2 + |a| + |e|] == e && w[2 + |a| + |e|] == 0 && w[3 + |a| + |e|] == 0 && w[4 + |a| + |e|] == 0
  {
  }

  lemma NonZero(w: seq<nat>, k: nat, p: seq<nat>)
    requires k + |p| <= |w| && w[k..k + |p|] == p && forall i | 0 <= i < |p| :: p[i] > 0
    ensures forall i | k <= i < k + |p| :: w[i] != 0
  {
    forall i | k <= i < k + |p| ensures w[i] != 0 {
      assert w[k..k + |p|][i - k] == w[i];
    }
  }

  lemma WordIs(page: seq<Byte>, at: nat, words: seq<nat>, i: nat)
    requires WordsAt(page, at, words) && i < |words|
    ensures WordOr(page, at + 8 * i) == words[i]
  {
  }

  /** The pointers and counts that the decoder reads are those written. */
  lemma PointersBack(page: seq<Byte>, sp: nat, a: seq<nat>, e: seq<nat>)
    requires sp >= BASE && WordsAt(page, sp - BASE, Words(a, e))
    requires (forall i | 0 <= i < |a| :: a[i] > 0) && (forall i | 0 <= i < |e| :: e[i] > 0)
    ensures Decode(page, sp) == Start(|a|, ReadStrs(page, a), ReadStrs(page, e), 0, 0)
  {
    hide U64, ReadStrs, WordsAt, Words, ReadPtrs, WordOr;
    var w, at := Words(a, e), sp - BASE;
    WordsSlices(a, e);
    NonZero(w, 1, a);
    NonZero(w, 2 + |a|, e);
    ReadPtrsAre(page, at, w, 1, |a|);
    ReadPtrsAre(page, at, w, 2 + |a|, |e|);
    assert at + 8 + 8 * (|a| + 1) == at + 8 * (2 + |a|);
    WordIs(page, at, w, 0);
    WordIs(page, at, w, 3 + |a| + |e|);
    WordIs(page, at, w, 4 + |a| + |e|);
    assert at + 8 * (2 + |a|) + 8 * (|e| + 1) == at + 8 * (3 + |a| + |e|);
    assert at + 8 * (3 + |a| + |e|) + 8 == at + 8 * (4 + |a| + |e|);
  }

  /** The program reads back exactly its arguments and environment, and the null auxiliary vector, if and
      only if no string holds a zero byte. */
  lemma StackRoundTrip(page: seq<Byte>, sp: nat, argv: seq<Str>, env: seq<Str>)
    requires StackOk(page, sp, argv, env)
    ensures Decode(page, sp) == Start(|argv|, argv, env, 0, 0) <==> AllNulFree(argv) && AllNulFree(env)
  {
    hide ReadStrs, WordsAt, Words, Decode, AllNulFree, Span, Placed;
    var envTop := StartOf(argv, 0, USER_STACK_TOP);
    SmallWords(argv, USER_STACK_TOP);
    SpanNat(env, 0);
    SmallWords(env, envTop);
    PointersBack(page, sp, Ptrs(argv, USER_STACK_TOP), Ptrs(env, envTop));
    StringsBack(page, argv, USER_STACK_TOP);
    StringsBack(page, env, envTop);
  }

  /** The strings of one list lie one above the other, terminators included. */
  lemma StringsApart(values: seq<Str>, top: nat, i: nat, j: nat)
    requires i < j < |values|
    ensures StartOf(values, i, top) + |values[i]| + 1 <= StartOf(values, j, top)
    ensures StartOf(values, j, top) + |values[j]| + 1 <= top
  {
    SpanMonotone(values, i, j);
    SpanMonotone(values, j, |values|);
  }

  /** All that is written lies in the page, and no two writes overlap: the words, then the environment, then
      the arguments, up to the top. */
  lemma WritesApart(page: seq<Byte>, sp: nat, argv: seq<Str>, env: seq<Str>, i: nat, j: nat)
    requires StackOk(page, sp, argv, env) && i < |env| && j < |argv|
    ensures var envTop := StartOf(argv, 0, USER_STACK_TOP);
            && BASE <= sp && sp + 8 * (|argv| + |env| + 5) <= StartOf(env, i, envTop)
            && StartOf(env, i, envTop) + |env[i]| + 1 <= StartOf(argv, j, USER_STACK_TOP)
            && StartOf(argv, j, USER_STACK_TOP) + |argv[j]| + 1 <= USER_STACK_TOP
  {
    SpanMonotone(env, 0, i);
    SpanMonotone(env, i, |env|);
    SpanMonotone(argv, 0, j);
    SpanMonotone(argv, j, |argv|);
  }
}
