/** The direct map: merging the physical ranges in place and mapping each with 2 MiB and 4 KiB pages. */
module DirectMap {
  import opened Wrappers
  import opened PageEntries
  import opened PageTables
  import opened PageOwners
  import opened PageSteps
  import opened PageSpaces
  import opened PageNumbers
  import opened VirtualMemory

  const PAGE: nat := 0x1000
  const LARGE: nat := 0x20_0000

  type Range = (nat, nat)

  // ----------------------------------------------------------------- merging

  ghost predicate Covers(s: seq<Range>, p: nat) { exists i :: 0 <= i < |s| && s[i].0 <= p < s[i].1 }

  ghost predicate Sorted(s: seq<Range>) { forall i, j | 0 <= i < j < |s| :: s[i].0 <= s[j].0 }

  /** In order, with a gap between any two. */
  ghost predicate Apart(s: seq<Range>) { forall i, j | 0 <= i < j < |s| :: s[i].1 < s[j].0 }

  ghost predicate Ranges(s: seq<Range>)
  {
    forall i | 0 <= i < |s| :: s[i].0 < s[i].1 && s[i].0 % PAGE == 0 && s[i].1 % PAGE == 0
  }

  /** Sort by start, in place. */
  method SortRanges(a: array<Range>)
    modifies a
    ensures Sorted(a[..]) && multiset(a[..]) == multiset(old(a[..]))
  {
    if a.Length == 0 { return; }
    var i := 1;
    while i < a.Length
      invariant 1 <= i <= a.Length && Sorted(a[..i]) && multiset(a[..]) == multiset(old(a[..]))
    {
      Insert(a, i);
      i := i + 1;
    }
    assert a[..i] == a[..];
  }

  /** All but position `j` is in order, and nothing behind it belongs before it. */
  ghost predicate SortedBut(s: seq<Range>, j: nat)
  {
    && (forall x, y | 0 <= x < y < |s| && x != j && y != j :: s[x].0 <= s[y].0)
    && (forall y | j < y < |s| :: j < |s| && s[j].0 <= s[y].0)
  }

  method Insert(a: array<Range>, i: nat)
    requires 0 < i < a.Length && Sorted(a[..i])
    modifies a
    ensures Sorted(a[..i + 1]) && multiset(a[..]) == multiset(old(a[..]))
  {
    hide SortedBut;
    var j := i;
    assert a[..i + 1][..i] == a[..i];
    LastOut(a[..i + 1]);
    while j > 0 && a[j - 1].0 > a[j].0
      invariant 0 <= j <= i && SortedBut(a[..i + 1], j) && multiset(a[..]) == multiset(old(a[..]))
    {
      ghost var s := a[..];
      a[j - 1], a[j] := a[j], a[j - 1];
      SwapKeeps(s, a[..], j);
      SwapSorts(s[..i + 1], a[..i + 1], j);
      j := j - 1;
    }
    InPlace(a[..i + 1], j);
  }

  lemma LastOut(s: seq<Range>)
    requires |s| > 0 && Sorted(s[..|s| - 1])
    ensures SortedBut(s, |s| - 1)
  {
  }

  lemma InPlace(s: seq<Range>, j: nat)
    requires SortedBut(s, j) && j < |s| && (j > 0 ==> s[j - 1].0 <= s[j].0)
    ensures Sorted(s)
  {
  }

  lemma SwapSorts(s: seq<Range>, t: seq<Range>, j: nat)
    requires 0 < j < |s| && t == s[j - 1 := s[j]][j := s[j - 1]] && SortedBut(s, j) && s[j].0 < s[j - 1].0
    ensures SortedBut(t, j - 1)
  {
  }

  lemma SwapKeeps(s: seq<Range>, t: seq<Range>, j: nat)
    requires 0 < j < |s| && t == s[j - 1 := s[j]][j := s[j - 1]]
    ensures multiset(t) == multiset(s)
  {
  }

  lemma SameElements(s: seq<Range>, t: seq<Range>)
    requires multiset(s) == multiset(t)
    ensures Ranges(s) ==> Ranges(t)
    ensures forall p | Covers(s, p) :: Covers(t, p)
  {
    forall i | 0 <= i < |t| ensures t[i] in s {
      assert t[i] in multiset(t);
    }
    forall p | Covers(s, p) ensures Covers(t, p) {
      var i :| 0 <= i < |s| && s[i].0 <= p < s[i].1;
      assert s[i] in multiset(s);
      assert s[i] in t;
    }
  }

  /** One range more, merged into the last one or put behind it. */
  function Absorb(s: seq<Range>, r: Range): seq<Range>
  {
    if |s| > 0 && r.0 <= s[|s| - 1].1
    then if r.1 > s[|s| - 1].1 then s[|s| - 1 := (s[|s| - 1].0, r.1)] else s
    else s + [r]
  }

  lemma AbsorbCovers(s: seq<Range>, r: Range, p: nat)
    requires r.0 < r.1 && (|s| > 0 ==> s[|s| - 1].0 <= r.0)
    ensures Covers(Absorb(s, r), p) <==> Covers(s, p) || r.0 <= p < r.1
  {
    var t := Absorb(s, r);
    if Covers(s, p) {
      var i :| 0 <= i < |s| && s[i].0 <= p < s[i].1;
      assert t[i].0 <= p < t[i].1;
    }
    if r.0 <= p < r.1 {
      assert t[|t| - 1].0 <= p < t[|t| - 1].1 || (|s| > 0 && s[|s| - 1].0 <= p < s[|s| - 1].1);
    }
    if Covers(t, p) {
      var i :| 0 <= i < |t| && t[i].0 <= p < t[i].1;
      assert i < |s| - 1 ==> s[i].0 <= p < s[i].1;
      assert i < |s| ==> s[i].0 <= p < s[i].1 || r.0 <= p < r.1;
    }
  }

  lemma AbsorbApart(s: seq<Range>, r: Range)
    requires Apart(s) && Ranges(s) && Ranges([r]) && (|s| > 0 ==> s[|s| - 1].0 <= r.0)
    ensures Apart(Absorb(s, r)) && Ranges(Absorb(s, r)) && |s| <= |Absorb(s, r)| <= |s| + 1
    ensures var t := Absorb(s, r); |t| > 0 && t[|t| - 1].0 <= r.0
  {
    assert Ranges([r]) ==> [r][0] == r;
    var t := Absorb(s, r);
    forall i, j | 0 <= i < j < |t| ensures t[i].1 < t[j].0 {
      assert i < |s| - 1 ==> s[i].1 < s[|s| - 1].0;
    }
  }

  /** The ranges of `s` absorbed one after the other. */
  function Merged(s: seq<Range>): (m: seq<Range>)
    ensures |m| <= |s|
  {
    if s == [] then [] else Absorb(Merged(s[..|s| - 1]), s[|s| - 1])
  }

  lemma MergedNext(s: seq<Range>, i: nat)
    requires i < |s|
    ensures Merged(s[..i + 1]) == Absorb(Merged(s[..i]), s[i])
  {
    assert s[..i + 1][..i] == s[..i];
  }

  lemma {:induction false} MergedApart(s: seq<Range>)
    requires Sorted(s) && Ranges(s)
    ensures Apart(Merged(s)) && Ranges(Merged(s))
    ensures s != [] ==> Merged(s) != [] && Merged(s)[|Merged(s)| - 1].0 <= s[|s| - 1].0
  {
    if s != [] {
      var i := |s| - 1;
      MergedApart(s[..i]);
      AbsorbApart(Merged(s[..i]), s[i]);
    }
  }

  lemma {:induction false} MergedCovers(s: seq<Range>, p: nat)
    requires Sorted(s) && Ranges(s)
    ensures Covers(Merged(s), p) <==> Covers(s, p)
  {
    hide Covers, Absorb;
    if s != [] {
      var i := |s| - 1;
      MergedApart(s[..i]);
      MergedCovers(s[..i], p);
      AbsorbCovers(Merged(s[..i]), s[i], p);
      CoversNext(s, i, p);
      assert s[..i + 1] == s;
    } else {
      assert Merged(s) == s;
    }
  }

  /** Sorted ranges merge to the same bytes, with a gap between any two of the results. */
  lemma MergedOk(s: seq<Range>)
    requires Sorted(s) && Ranges(s)
    ensures Apart(Merged(s)) && Ranges(Merged(s)) && forall p: nat :: Covers(Merged(s), p) <==> Covers(s, p)
  {
    MergedApart(s);
    hide Merged, Covers, Apart, Ranges, Sorted;
    forall p: nat ensures Covers(Merged(s), p) <==> Covers(s, p) {
      MergedCovers(s, p);
    }
  }

  /** Sort `[start, end)` ranges and merge any that touch or overlap, in place. */
  method MergeRanges(a: array<Range>) returns (n: nat)
    requires Ranges(a[..])
    modifies a
    ensures n <= a.Length && Apart(a[..n]) && Ranges(a[..n])
    ensures forall p: nat :: Covers(a[..n], p) <==> Covers(old(a[..]), p)
  {
    hide Covers, Absorb, Merged, Apart, Sorted, Ranges;
    SortRanges(a);
    ghost var s := a[..];
    SameElements(old(a[..]), s);
    SameElements(s, old(a[..]));
    MergedOk(s);
    n := MergeSorted(a);
  }

  /** Absorb the ranges one by one into the front of the array. */
  method MergeSorted(a: array<Range>) returns (n: nat)
    modifies a
    ensures n <= a.Length && a[..n] == Merged(old(a[..]))
  {
    hide Merged;
    ghost var s := a[..];
    n := 0;
    var i := 0;
    while i < a.Length
      invariant n <= i <= a.Length && a[..n] == Merged(s[..i])
      invariant forall k | i <= k < a.Length :: a[k] == s[k]
    {
      ghost var t := a[..n];
      var r := a[i];
      MergedNext(s, i);
      if n > 0 && r.0 <= a[n - 1].1 {
        if r.1 > a[n - 1].1 {
          a[n - 1] := (a[n - 1].0, r.1);
        }
      } else {
        a[n] := r;
        n := n + 1;
      }
      assert a[..n] == Absorb(t, r);
      i := i + 1;
    }
    assert s[..i] == s;
  }

  lemma CoversNext(s: seq<Range>, i: nat, p: nat)
    requires i < |s|
    ensures Covers(s[..i + 1], p) <==> Covers(s[..i], p) || s[i].0 <= p < s[i].1
  {
  }

  // ----------------------------------------------------------------- mapping

  /** The virtual page of frame `q` in the direct map that starts at page `h`. */
  function PageAt(h: nat, q: nat): (va: Va)
    ensures VaOk(va)
  {
    VaN(h + q)
  }

  /** What page `v` translates to when exactly the frames in `done` are mapped from page number `low` on. */
  ghost function Direct(low: nat, done: iset<nat>, v: Va): Option<Mapping>
  {
    if Num(v) >= low && Num(v) - low in done then Some(Mapping(Num(v) - low, RW)) else None
  }

  ghost predicate Maps(mem: Mem, kernel: nat, low: nat, done: iset<nat>)
  {
    forall v | VaOk(v) :: View(mem, 0, kernel, v) == Direct(low, done, v)
  }

  /** A page table exists only in blocks where some frame is mapped. */
  ghost predicate TablesUsed(at: Tables, kernel: nat, low: nat, done: iset<nat>)
  {
    forall v | VaOk(v) && Place(kernel, PathTo(v, 3)) in at :: exists q ::
      q in done && (low + q) / 0x200 == Num(v) / 0x200
  }

  ghost predicate DirectOk(vm: AddressSpaces, low: nat, done: iset<nat>)
    reads vm
  {
    vm.Valid() && NoGiant(vm.mem, vm.loc) && Maps(vm.mem, vm.kernel, low, done)
      && TablesUsed(vm.at, vm.kernel, low, done)
  }

  /** Page `h + q` lies in the window that starts at page number `low`. */
  lemma Window(h: nat, q: nat)
    requires h % 0x10_0000_0000 + q < 0x10_0000_0000
    ensures Num(PageAt(h, q)) == h % 0x10_0000_0000 + q
  {
    hide VaN, Num;
    NumN(h + q);
  }

  lemma SmallMaps(mem: Mem, mem': Mem, loc: Places, held: Held, kernel: nat, low: nat, done: iset<nat>, q: nat, va: Va)
    requires Maps(mem, kernel, low, done) && IsRoot(loc, kernel) && VaOk(va) && Num(va) == low + q
    requires OnePage(kernel, loc, held, mem, mem', kernel, va, Some(Mapping(q, RW)))
    ensures Maps(mem', kernel, low, done + iset{q})
  {
    hide View, Num;
    forall v | VaOk(v) ensures View(mem', 0, kernel, v) == Direct(low, done + iset{q}, v) {
      NumUnique(v, va);
      assert View(mem, 0, kernel, v) == Direct(low, done, v);
    }
  }

  lemma SmallTables(at: Tables, at': Tables, kernel: nat, low: nat, done: iset<nat>, q: nat, va: Va)
    requires TablesUsed(at, kernel, low, done) && VaOk(va) && Num(va) == low + q
    requires at'.Keys == at.Keys + TablePlaces(kernel, va)
    ensures TablesUsed(at', kernel, low, done + iset{q})
  {
    hide Num;
    forall v | VaOk(v) && Place(kernel, PathTo(v, 3)) in at'
      ensures exists x :: x in done + iset{q} && (low + x) / 0x200 == Num(v) / 0x200
    {
      assert Place(kernel, PathTo(v, 3)) in at'.Keys;
      NumUnique(v, va);
      var x := if Place(kernel, PathTo(v, 3)) in at then UsedBy(at, kernel, low, done, v) else q;
      assert x in done + iset{q};
    }
  }

  ghost function UsedBy(at: Tables, kernel: nat, low: nat, done: iset<nat>, v: Va): (x: nat)
    requires TablesUsed(at, kernel, low, done) && VaOk(v) && Place(kernel, PathTo(v, 3)) in at
    ensures x in done && (low + x) / 0x200 == Num(v) / 0x200
  {
    var x :| x in done && (low + x) / 0x200 == Num(v) / 0x200;
    x
  }

  /** Frames `q` to `q + 511`. */
  ghost function Block(q: nat): iset<nat> { Span(q, q + 0x200) }

  predicate Within(q: nat, a: nat, b: nat) { a <= q < b }

  /** Frames `a` to `b - 1`. */
  ghost function Span(a: nat, b: nat): iset<nat> { iset q: nat | Within(q, a, b) }

  lemma LargeMaps(mem: Mem, mem': Mem, loc: Places, held: Held, kernel: nat, low: nat, done: iset<nat>, q: nat, va: Va)
    requires Maps(mem, kernel, low, done) && IsRoot(loc, kernel) && VaOk(va) && Num(va) == low + q && low % 0x200 == 0
             && q % 0x200 == 0
    requires OneBlock(kernel, loc, held, mem, mem', va, q, RW)
    ensures Maps(mem', kernel, low, done + Block(q))
  {
    hide View, Num;
    forall v | VaOk(v) ensures View(mem', 0, kernel, v) == Direct(low, done + Block(q), v) {
      NumUnique(v, va);
      InBlock(v, va, low, q);
      assert View(mem, 0, kernel, v) == Direct(low, done, v);
    }
  }

  lemma InBlock(v: Va, va: Va, low: nat, q: nat)
    requires VaOk(v) && VaOk(va) && Num(va) == low + q && low % 0x200 == 0 && q % 0x200 == 0
    ensures SameBlock(v, va) <==> low + q <= Num(v) < low + q + 0x200
    ensures SameBlock(v, va) ==> Num(v) == low + q + v.i3
  {
    hide Num, BlockNum, SameBlock;
    NumUnique(v, va);
    NumParts(v);
    Aligned(low, q);
    BlockStart(low + q, Num(v));
  }

  lemma Aligned(a: nat, b: nat)
    requires a % 0x200 == 0 && b % 0x200 == 0
    ensures (a + b) % 0x200 == 0
  {
  }

  lemma BlockStart(a: nat, x: nat)
    requires a % 0x200 == 0
    ensures a / 0x200 == x / 0x200 <==> a <= x < a + 0x200
    ensures a / 0x200 == x / 0x200 ==> x == a + x % 0x200
  {
  }

  lemma LargeTables(at: Tables, at': Tables, kernel: nat, low: nat, done: iset<nat>, more: iset<nat>, va: Va)
    requires TablesUsed(at, kernel, low, done)
    requires at'.Keys == at.Keys + DirPlaces(kernel, va)
    ensures TablesUsed(at', kernel, low, done + more)
  {
  }

  /** Where no frame of a block is mapped, there is no page table that a large page would overwrite. */
  lemma NoTableHere(at: Tables, kernel: nat, low: nat, done: iset<nat>, q: nat, va: Va)
    requires TablesUsed(at, kernel, low, done) && VaOk(va) && Num(va) == low + q && low % 0x200 == 0 && q % 0x200 == 0
    requires done !! Block(q)
    ensures Place(kernel, PathTo(va, 3)) !in at
  {
    hide Num;
    forall x | x in done && (low + x) / 0x200 == Num(va) / 0x200 ensures x in Block(q) {
    }
  }

  method MapSmall(vm: AddressSpaces, h: nat, q: nat, ghost done: iset<nat>, ghost need: set<Place>)
    requires DirectOk(vm, h % 0x10_0000_0000, done) && h % 0x10_0000_0000 + q < 0x10_0000_0000
    requires TablePlaces(vm.kernel, PageAt(h, q)) <= need && Enough(need, vm.at, vm.free)
    modifies vm
    ensures DirectOk(vm, h % 0x10_0000_0000, done + iset{q}) && Enough(need, vm.at, vm.free)
  {
    hide VmOk, OnePage, NoGiant, Maps, TablesUsed, PageAt, Num, Made, Enough, TablePlaces, Kept;
    var va := PageAt(h, q);
    Window(h, q);
    RootIsRoot(vm.mem, vm.loc, vm.at, vm.leaf, vm.held, vm.kernel, vm.free);
    EnoughLess(need, TablePlaces(vm.kernel, va), vm.at, vm.free);
    vm.Map4K(vm.kernel, va, Mapping(q, RW));
    EnoughStill(need, old(vm.at), old(vm.free), vm.at, vm.free, TablePlaces(vm.kernel, va));
    SmallMaps(old(vm.mem), vm.mem, old(vm.loc), vm.held, vm.kernel, h % 0x10_0000_0000, done, q, va);
    MadeKeys(old(vm.at), old(vm.free), vm.at, vm.free, TablePlaces(vm.kernel, va));
    SmallTables(old(vm.at), vm.at, vm.kernel, h % 0x10_0000_0000, done, q, va);
  }

  method MapLarge(vm: AddressSpaces, h: nat, q: nat, ghost done: iset<nat>, ghost need: set<Place>)
    requires DirectOk(vm, h % 0x10_0000_0000, done) && h % 0x10_0000_0000 + q < 0x10_0000_0000
    requires DirPlaces(vm.kernel, PageAt(h, q)) <= need && Enough(need, vm.at, vm.free)
    requires h % 0x200 == 0 && q % 0x200 == 0 && done !! Block(q)
    modifies vm
    ensures DirectOk(vm, h % 0x10_0000_0000, done + Block(q)) && Enough(need, vm.at, vm.free)
  {
    hide VmOk, OneBlock, NoGiant, Maps, TablesUsed, PageAt, Num, Block, Made, Enough, DirPlaces, Kept;
    var va := PageAt(h, q);
    Window(h, q);
    LowAligned(h);
    RootIsRoot(vm.mem, vm.loc, vm.at, vm.leaf, vm.held, vm.kernel, vm.free);
    NoTableHere(vm.at, vm.kernel, h % 0x10_0000_0000, done, q, va);
    EnoughLess(need, DirPlaces(vm.kernel, va), vm.at, vm.free);
    vm.Map2M(va, q, RW);
    EnoughStill(need, old(vm.at), old(vm.free), vm.at, vm.free, DirPlaces(vm.kernel, va));
    LargeMaps(old(vm.mem), vm.mem, old(vm.loc), vm.held, vm.kernel, h % 0x10_0000_0000, done, q, va);
    MadeKeys(old(vm.at), old(vm.free), vm.at, vm.free, DirPlaces(vm.kernel, va));
    LargeTables(old(vm.at), vm.at, vm.kernel, h % 0x10_0000_0000, done, Block(q), va);
  }

  lemma LowAligned(h: nat)
    requires h % 0x200 == 0
    ensures h % 0x10_0000_0000 % 0x200 == 0
  {
  }

  /** First frame of the 2 MiB block of frame `q`. */
  function BlockOf(q: nat): nat { q / 0x200 * 0x200 }

  /** The whole 2 MiB block of frame `q` lies in `[a, e)`. */
  predicate Inside(q: nat, a: nat, e: nat) { a <= BlockOf(q) && BlockOf(q) + 0x200 <= e }

  /** `need` holds every table for the frames `[a, e)`: page tables only where a block is not whole. */
  ghost predicate TablesIn(kernel: nat, h: nat, a: nat, e: nat, need: set<Place>)
  {
    forall q: nat | a <= q < e ::
      DirPlaces(kernel, PageAt(h, q)) <= need && (!Inside(q, a, e) ==> TablePlaces(kernel, PageAt(h, q)) <= need)
  }

  lemma TablesHere(kernel: nat, h: nat, a: nat, e: nat, need: set<Place>, q: nat)
    requires TablesIn(kernel, h, a, e, need) && a <= q < e
    ensures DirPlaces(kernel, PageAt(h, q)) <= need && (!Inside(q, a, e) ==> TablePlaces(kernel, PageAt(h, q)) <= need)
  {
  }

  /** Map physical `[start, end)` into the direct map, with 2 MiB pages wherever a whole one fits. */
  method MapHhdmRange(vm: AddressSpaces, hhdm: nat, start: nat, end: nat, ghost done: iset<nat>, ghost need: set<Place>)
    requires hhdm % LARGE == 0 && start < end && start % PAGE == 0 && end % PAGE == 0
    requires Low(hhdm) + end / PAGE <= 0x10_0000_0000
    requires DirectOk(vm, Low(hhdm), done) && done !! Span(start / PAGE, end / PAGE)
    requires TablesIn(vm.kernel, hhdm / PAGE, start / PAGE, end / PAGE, need) && Enough(need, vm.at, vm.free)
    modifies vm
    ensures DirectOk(vm, Low(hhdm), done + Span(start / PAGE, end / PAGE)) && Enough(need, vm.at, vm.free)
  {
    hide DirectOk, Span, Block, Low, TablesIn, Enough, Inside, DirPlaces, TablePlaces, PageAt;
    var h := hhdm / PAGE;
    ghost var a, f, e := start / PAGE, start / PAGE, end / PAGE;
    RangeFrames(hhdm, start, end, a, e);
    SpanNone(done, f);
    InsideFirst(a, e);
    var p := start;
    while p < end
      invariant a <= f <= e && p == f * PAGE && (Inside(f, a, e) ==> f % 0x200 == 0)
      invariant DirectOk(vm, Low(hhdm), done + Span(a, f)) && Enough(need, vm.at, vm.free)
    {
      InFrames(p, f);
      TablesHere(vm.kernel, h, a, e, need, f);
      InsideNext(f, a, e);
      if p % LARGE == 0 && end - p >= LARGE {
        SpanBlock(done, a, f, e);
        MapLarge(vm, h, p / PAGE, done + Span(a, f), need);
        p, f := p + LARGE, f + 0x200;
      } else {
        SpanOne(done, a, f);
        MapSmall(vm, h, p / PAGE, done + Span(a, f), need);
        p, f := p + PAGE, f + 1;
      }
    }
  }

  lemma InsideFirst(a: nat, e: nat)
    ensures Inside(a, a, e) ==> a % 0x200 == 0
  {
  }

  /** A block is reached at its start, and then mapped whole if it lies inside. */
  lemma InsideNext(f: nat, a: nat, e: nat)
    requires f < e && (Inside(f, a, e) ==> f % 0x200 == 0)
    ensures f % 0x200 == 0 ==> (f + 0x200) % 0x200 == 0
    ensures !(f % 0x200 == 0 && e - f >= 0x200) ==> !Inside(f, a, e) && (Inside(f + 1, a, e) ==> (f + 1) % 0x200 == 0)
  {
  }

  lemma RangeFrames(hhdm: nat, start: nat, end: nat, a: nat, e: nat)
    requires hhdm % LARGE == 0 && start % PAGE == 0 && end % PAGE == 0 && a == start / PAGE && e == end / PAGE
    ensures start == a * PAGE && end == e * PAGE && hhdm / PAGE % 0x200 == 0
            && Low(hhdm) == hhdm / PAGE % 0x10_0000_0000
  {
  }

  lemma InFrames(p: nat, f: nat)
    requires p == f * PAGE
    ensures p / PAGE == f && (p % LARGE == 0 <==> f % 0x200 == 0)
  {
  }

  /** Low bits of the page number at which the direct map starts. */
  function Low(hhdm: nat): nat { hhdm / PAGE % 0x10_0000_0000 }

  lemma SpanNone(done: iset<nat>, a: nat)
    ensures done + Span(a, a) == done
  {
  }

  lemma SpanOne(done: iset<nat>, a: nat, f: nat)
    requires a <= f
    ensures done + Span(a, f) + iset{f} == done + Span(a, f + 1)
  {
  }

  lemma SpanBlock(done: iset<nat>, a: nat, f: nat, e: nat)
    requires a <= f && f + 0x200 <= e && done !! Span(a, e)
    ensures done + Span(a, f) + Block(f) == done + Span(a, f + 0x200)
    ensures done + Span(a, f) !! Block(f)
  {
  }

  // ---------------------------------------------------------- the whole map

  /** The frames that lie in the ranges. */
  ghost function Covered(s: seq<Range>): iset<nat> { iset q: nat | Covers(s, q * PAGE) }

  lemma CoveredNext(s: seq<Range>, i: nat)
    requires i < |s| && Ranges(s) && Apart(s)
    ensures Covered(s[..i + 1]) == Covered(s[..i]) + Span(s[i].0 / PAGE, s[i].1 / PAGE)
    ensures Covered(s[..i]) !! Span(s[i].0 / PAGE, s[i].1 / PAGE)
  {
  }

  /** Whole pages are covered or not. */
  lemma CoversPage(s: seq<Range>, phys: nat)
    requires Ranges(s)
    ensures Covers(s, phys) <==> Covers(s, phys / PAGE * PAGE)
  {
  }

  /** The tables as `init` starts them hold no direct map yet. */
  lemma EmptyDirect(vm: AddressSpaces, low: nat)
    requires vm.Valid() && NoGiant(vm.mem, vm.loc) && vm.at == map[Place(vm.kernel, P0) := vm.kernel]
    requires forall va | VaOk(va) :: vm.Seen(vm.kernel, va) == None
    ensures DirectOk(vm, low, iset{})
  {
  }

  /** The tables for the covered frames below `top`: a page directory for each, and a page table where
      the 2 MiB block is not covered as a whole. */
  ghost function Needed(kernel: nat, h: nat, s: seq<Range>, top: nat): set<Place>
  {
    Paths(kernel, h, s, top, 1) + Paths(kernel, h, s, top, 2) + LastTables(kernel, h, s, top)
  }

  ghost function Paths(kernel: nat, h: nat, s: seq<Range>, top: nat, k: nat): set<Place>
  {
    set q | 0 <= q < top && Covers(s, q * PAGE) :: Place(kernel, PathTo(PageAt(h, q), k))
  }

  ghost function LastTables(kernel: nat, h: nat, s: seq<Range>, top: nat): set<Place>
  {
    set q | 0 <= q < top && Covers(s, q * PAGE) && !Whole(s, q) :: Place(kernel, PathTo(PageAt(h, q), 3))
  }

  /** Every frame of the 2 MiB block of frame `q` is covered. */
  ghost predicate Whole(s: seq<Range>, q: nat)
  {
    forall x: nat | BlockOf(q) <= x < BlockOf(q) + 0x200 :: Covers(s, x * PAGE)
  }

  lemma NeededSame(kernel: nat, h: nat, s: seq<Range>, r: seq<Range>, top: nat)
    requires forall p: nat :: Covers(s, p) <==> Covers(r, p)
    ensures Needed(kernel, h, s, top) == Needed(kernel, h, r, top)
  {
    hide Covers, BlockOf, PageAt;
    forall q: nat ensures Whole(s, q) <==> Whole(r, q) {
    }
    assert Paths(kernel, h, s, top, 1) == Paths(kernel, h, r, top, 1);
    assert Paths(kernel, h, s, top, 2) == Paths(kernel, h, r, top, 2);
    assert LastTables(kernel, h, s, top) == LastTables(kernel, h, r, top);
  }

  /** What the ranges need includes what each of them needs. */
  lemma NeededIn(kernel: nat, h: nat, s: seq<Range>, top: nat, i: nat)
    requires Ranges(s) && Apart(s) && i < |s| && s[i].1 <= top * PAGE
    ensures TablesIn(kernel, h, s[i].0 / PAGE, s[i].1 / PAGE, Needed(kernel, h, s, top))
  {
    hide Covers, PageAt, Inside, Ranges, Apart, Needed, DirPlaces, TablePlaces;
    var a, e := s[i].0 / PAGE, s[i].1 / PAGE;
    forall q: nat | a <= q < e
      ensures DirPlaces(kernel, PageAt(h, q)) <= Needed(kernel, h, s, top)
      ensures !Inside(q, a, e) ==> TablePlaces(kernel, PageAt(h, q)) <= Needed(kernel, h, s, top)
    {
      CoveredHere(s, top, i, q);
      NeededHere(kernel, h, s, top, q);
    }
  }

  lemma NeededHere(kernel: nat, h: nat, s: seq<Range>, top: nat, q: nat)
    requires q < top && Covers(s, q * PAGE)
    ensures DirPlaces(kernel, PageAt(h, q)) <= Needed(kernel, h, s, top)
    ensures !Whole(s, q) ==> TablePlaces(kernel, PageAt(h, q)) <= Needed(kernel, h, s, top)
  {
    hide Covers, BlockOf, PageAt, Whole;
    assert Place(kernel, PathTo(PageAt(h, q), 1)) in Paths(kernel, h, s, top, 1);
    assert Place(kernel, PathTo(PageAt(h, q), 2)) in Paths(kernel, h, s, top, 2);
    assert !Whole(s, q) ==> Place(kernel, PathTo(PageAt(h, q), 3)) in LastTables(kernel, h, s, top);
  }

  /** A block that does not lie in one of the ranges is not covered as a whole, as no two ranges touch. */
  lemma CoveredHere(s: seq<Range>, top: nat, i: nat, q: nat)
    requires Ranges(s) && Apart(s) && i < |s| && s[i].1 <= top * PAGE && s[i].0 / PAGE <= q < s[i].1 / PAGE
    ensures q < top && Covers(s, q * PAGE)
    ensures !Inside(q, s[i].0 / PAGE, s[i].1 / PAGE) ==> !Whole(s, q)
  {
    hide BlockOf, Apart;
    var a, e := s[i].0 / PAGE, s[i].1 / PAGE;
    assert s[i].0 == a * PAGE && s[i].1 == e * PAGE;
    assert s[i].0 <= q * PAGE < s[i].1;
    BlockAround(q);
    if BlockOf(q) < a {
      NotBefore(s, i);
      assert !Covers(s, (a - 1) * PAGE);
    } else {
      NotBehind(s, i);
      assert !Covers(s, e * PAGE);
    }
  }

  lemma BlockAround(q: nat)
    ensures BlockOf(q) <= q < BlockOf(q) + 0x200
  {
  }

  lemma NotBefore(s: seq<Range>, i: nat)
    requires Ranges(s) && Apart(s) && i < |s| && s[i].0 > 0
    ensures s[i].0 >= PAGE && !Covers(s, s[i].0 - PAGE)
  {
  }

  lemma NotBehind(s: seq<Range>, i: nat)
    requires Ranges(s) && Apart(s) && i < |s|
    ensures !Covers(s, s[i].1)
  {
  }

  // A machine has far more free frames than the direct map needs tables.

  ghost function Image<T>(f: int -> T, lo: int, hi: int): set<T> { set x | lo <= x < hi :: f(x) }

  lemma {:induction false} ImageSize<T>(f: int -> T, lo: int, hi: int)
    requires lo <= hi
    ensures |Image(f, lo, hi)| <= hi - lo
    decreases hi - lo
  {
    if lo < hi {
      ImageSize(f, lo, hi - 1);
      assert Image(f, lo, hi) == Image(f, lo, hi - 1) + {f(hi - 1)};
    } else {
      assert Image(f, lo, hi) == {};
    }
  }

  /** The path of the table with number `n` at level `k`, counting the tables of that level in the order
      of their pages. */
  function NthPath(n: nat, k: nat): Path
  {
    if k == 1 then P1(n) else if k == 2 then P2(n / 512, n % 512) else P3(n / 0x4_0000, n / 512 % 512, n % 512)
  }

  /** Pages that one table of level `k` translates. */
  function Reach(k: nat): nat { if k == 1 then 0x800_0000 else if k == 2 then 0x4_0000 else 0x200 }

  lemma PathNumber(h: nat, q: nat, k: nat)
    requires 1 <= k <= 3 && h % 0x10_0000_0000 + q < 0x10_0000_0000
    ensures PathTo(PageAt(h, q), k) == NthPath((h % 0x10_0000_0000 + q) / Reach(k), k)
  {
    Window(h, q);
    NumParts(PageAt(h, q));
    NumTables(PageAt(h, q));
  }

  lemma NumTables(va: Va)
    requires VaOk(va)
    ensures Num(va) / 0x200 == BlockNum(va) && Num(va) / 0x4_0000 == BlockNum(va) / 0x200
            && Num(va) / 0x800_0000 == BlockNum(va) / 0x4_0000
  {
    NumParts(va);
    assert Num(va) / 0x200 / 0x200 == Num(va) / 0x4_0000;
    assert Num(va) / 0x4_0000 / 0x200 == Num(va) / 0x800_0000;
    assert BlockNum(va) / 0x200 / 0x200 == BlockNum(va) / 0x4_0000;
  }

  function TableNo(kernel: nat, k: nat, n: int): Place { Place(kernel, NthPath(if n < 0 then 0 else n, k)) }

  lemma PathsBound(kernel: nat, h: nat, s: seq<Range>, top: nat, k: nat)
    requires 1 <= k <= 2 && h % 0x10_0000_0000 + top <= 0x10_0000_0000
    ensures |Paths(kernel, h, s, top, k)| <= top / Reach(k) + 2
  {
    hide Covers, PageAt, PathTo, NthPath;
    var low := h % 0x10_0000_0000;
    var f, lo := (n: int) => TableNo(kernel, k, n), low / Reach(k);
    var hi := (low + top) / Reach(k) + 1;
    forall p | p in Paths(kernel, h, s, top, k) ensures p in Image(f, lo, hi) {
      var q: nat :| q < top && Covers(s, q * PAGE) && p == Place(kernel, PathTo(PageAt(h, q), k));
      PathNumber(h, q, k);
      DivMonotone(low, low + q, low + top, k);
      assert f((low + q) / Reach(k)) == p;
    }
    DivSpread(low, top, k);
    ImageSize(f, lo, hi);
    SubsetSize(Paths(kernel, h, s, top, k), Image(f, lo, hi));
  }

  lemma DivMonotone(a: nat, b: nat, c: nat, k: nat)
    requires a <= b <= c
    ensures a / Reach(k) <= b / Reach(k) <= c / Reach(k)
  {
  }

  lemma DivSpread(a: nat, b: nat, k: nat)
    ensures a / Reach(k) <= (a + b) / Reach(k) <= a / Reach(k) + b / Reach(k) + 1
  {
  }

  /** The page table of frame `q`. */
  function TableOf(kernel: nat, h: nat, q: nat): Place { Place(kernel, PathTo(PageAt(h, q), 3)) }

  lemma SameTable(kernel: nat, h: nat, q: nat, x: nat)
    requires h % 0x200 == 0 && BlockOf(q) == BlockOf(x)
    ensures TableOf(kernel, h, q) == TableOf(kernel, h, x)
  {
    assert (h + q) / 0x200 == h / 0x200 + q / 0x200 && (h + x) / 0x200 == h / 0x200 + x / 0x200;
    SameIndices(h + q, h + x);
  }

  lemma SameIndices(m: nat, n: nat)
    requires m / 0x200 == n / 0x200
    ensures VaN(m).i0 == VaN(n).i0 && VaN(m).i1 == VaN(n).i1 && VaN(m).i2 == VaN(n).i2
  {
    assert m / 0x200 / 0x200 == m / 0x4_0000 && n / 0x200 / 0x200 == n / 0x4_0000;
    assert m / 0x200 / 0x4_0000 == m / 0x800_0000 && n / 0x200 / 0x4_0000 == n / 0x800_0000;
  }

  function Edge(kernel: nat, h: nat, s: seq<Range>, i: int, end: bool): Place
  {
    TableOf(kernel, h, if 0 <= i < |s| then (if end then s[i].1 else s[i].0) / PAGE else 0)
  }

  /** A block that is covered in part is one in which a range starts or ends. */
  lemma OnEdge(kernel: nat, h: nat, s: seq<Range>, q: nat) returns (i: nat, end: bool)
    requires h % 0x200 == 0 && Ranges(s) && Covers(s, q * PAGE) && !Whole(s, q)
    ensures i < |s| && TableOf(kernel, h, q) == Edge(kernel, h, s, i, end)
  {
    hide TableOf;
    i :| 0 <= i < |s| && s[i].0 <= q * PAGE < s[i].1;
    var x: nat :| BlockOf(q) <= x < BlockOf(q) + 0x200 && !Covers(s, x * PAGE);
    assert !(s[i].0 <= x * PAGE < s[i].1);
    var a, e := s[i].0 / PAGE, s[i].1 / PAGE;
    assert s[i].0 == a * PAGE && s[i].1 == e * PAGE;
    end := x > q;
    InSameBlock(q, x, if end then e else a);
    SameTable(kernel, h, q, if end then e else a);
  }

  lemma InSameBlock(q: nat, x: nat, m: nat)
    requires BlockOf(q) <= x < BlockOf(q) + 0x200 && (q <= m <= x || x <= m <= q)
    ensures BlockOf(m) == BlockOf(q)
  {
  }

  lemma EdgesBound(kernel: nat, h: nat, s: seq<Range>, top: nat)
    requires h % 0x200 == 0 && Ranges(s)
    ensures |LastTables(kernel, h, s, top)| <= 2 * |s|
  {
    hide Covers, PageAt, Whole, Ranges, Edge;
    var f, g := (i: int) => Edge(kernel, h, s, i, false), (i: int) => Edge(kernel, h, s, i, true);
    forall p | p in LastTables(kernel, h, s, top) ensures p in Image(f, 0, |s|) + Image(g, 0, |s|) {
      var q: nat :| q < top && Covers(s, q * PAGE) && !Whole(s, q) && p == Place(kernel, PathTo(PageAt(h, q), 3));
      var i, end := OnEdge(kernel, h, s, q);
      assert f(i) == Edge(kernel, h, s, i, false) && g(i) == Edge(kernel, h, s, i, true);
      assert p == if end then g(i) else f(i);
    }
    ImageSize(f, 0, |s|);
    ImageSize(g, 0, |s|);
    SubsetSize(LastTables(kernel, h, s, top), Image(f, 0, |s|) + Image(g, 0, |s|));
  }

  /** Two page tables for each range, a page directory for each gigabyte, and a few more frames are enough. */
  lemma EnoughFrames(kernel: nat, hhdm: nat, s: seq<Range>, top: nat, at: Tables, free: set<nat>)
    requires Ranges(s) && hhdm % LARGE == 0 && Low(hhdm) + top <= 0x10_0000_0000
    requires 2 * |s| + top / 0x800_0000 + top / 0x4_0000 + 4 <= |free|
    ensures Enough(Needed(kernel, hhdm / PAGE, s, top), at, free)
  {
    hide Covers, PageAt, Whole, Ranges, Paths, LastTables;
    var h := hhdm / PAGE;
    assert h % 0x200 == 0 by { RangeFrames(hhdm, 0, 0, 0, 0); }
    PathsBound(kernel, h, s, top, 1);
    PathsBound(kernel, h, s, top, 2);
    EdgesBound(kernel, h, s, top);
    var need := Needed(kernel, h, s, top);
    SubsetSize(need - at.Keys, need);
  }

  /** For instance a machine with 128 MiB, whose free frames all lie in the range that is mapped. */
  lemma SmallMachine(hhdm: nat, at: Tables)
    requires hhdm % LARGE == 0 && Low(hhdm) + 0x8000 <= 0x10_0000_0000
    ensures var s, free := [(0x10_0000, 0x800_0000)], set f: nat | f < 0x8000 && Within(f, 0x101, 0x8000);
            && Ranges(s) && (forall p: nat | Covers(s, p) :: p < 0x8000 * PAGE)
               && (forall f | f in free :: Covers(s, f * PAGE))
            && Enough(Needed(0x100, hhdm / PAGE, s, 0x8000), at, free)
  {
    var s, free := [(0x10_0000, 0x800_0000)], set f: nat | f < 0x8000 && Within(f, 0x101, 0x8000);
    assert s[0] == (0x10_0000, 0x800_0000);
    var few := {0x101, 0x102, 0x103, 0x104, 0x105, 0x106};
    SubsetSize(few, free);
    EnoughFrames(0x100, hhdm, s, 0x8000, at, free);
  }

  /** Map ranges that are sorted and apart. */
  method MapRanges(vm: AddressSpaces, hhdm: nat, a: array<Range>, n: nat, ghost top: nat)
    requires n <= a.Length && Ranges(a[..n]) && Apart(a[..n]) && (forall i | 0 <= i < n :: a[i].1 <= top * PAGE)
    requires hhdm % LARGE == 0 && Low(hhdm) + top <= 0x10_0000_0000
    requires DirectOk(vm, Low(hhdm), iset{}) && Enough(Needed(vm.kernel, hhdm / PAGE, a[..n], top), vm.at, vm.free)
    modifies vm
    ensures DirectOk(vm, Low(hhdm), Covered(a[..n]))
  {
    hide DirectOk, Covered, Covers, Low, Span, Needed, Enough, TablesIn;
    ghost var s := a[..n];
    ghost var need := Needed(vm.kernel, hhdm / PAGE, s, top);
    NothingCovered();
    var i := 0;
    while i < n
      invariant 0 <= i <= n && DirectOk(vm, Low(hhdm), Covered(s[..i])) && Enough(need, vm.at, vm.free)
    {
      var (start, end) := a[i];
      assert s[i] == a[i];
      CoveredNext(s, i);
      NeededIn(vm.kernel, hhdm / PAGE, s, top, i);
      MapHhdmRange(vm, hhdm, start, end, Covered(s[..i]), need);
      i := i + 1;
    }
    assert s[..i] == s;
  }

  lemma NothingCovered()
    ensures Covered([]) == iset{}
  {
  }

  lemma HhdmParts(hhdm: nat, phys: nat)
    requires hhdm % LARGE == 0
    ensures (hhdm + phys) / PAGE == hhdm / PAGE + phys / PAGE && (hhdm + phys) % PAGE == phys % PAGE
  {
    var m := hhdm / LARGE * 0x200;
    assert hhdm == m * PAGE;
    PagesAdd(m, phys);
    PagesAdd(m, 0);
  }

  lemma PagesAdd(m: nat, phys: nat)
    ensures (m * PAGE + phys) / PAGE == m + phys / PAGE && (m * PAGE + phys) % PAGE == phys % PAGE
  {
  }

  /** What the tables say about one address of the direct map. */
  lemma DirectByte(mem: Mem, kernel: nat, hhdm: nat, s: seq<Range>, phys: nat)
    requires Maps(mem, kernel, Low(hhdm), Covered(s)) && Ranges(s) && hhdm % LARGE == 0
    requires Low(hhdm) + phys / PAGE < 0x10_0000_0000 && !Get(mem, kernel, PageOf(hhdm + phys).i0).bit7
    ensures Walk(mem, kernel, hhdm + phys) == if Covers(s, phys) then Some(phys) else None
    ensures View(mem, 0, kernel, PageOf(hhdm + phys)) ==
              if Covers(s, phys) then Some(Mapping(phys / PAGE, RW)) else None
  {
    hide View, Walk, Covers, VaN, Num, PageOf;
    var q := phys / PAGE;
    var va := VaN(hhdm / PAGE + q);
    PageOfN(hhdm + phys);
    HhdmParts(hhdm, phys);
    Window(hhdm / PAGE, q);
    CoversPage(s, phys);
    WalkIsView(mem, kernel, hhdm + phys);
    assert View(mem, 0, kernel, va) == Direct(Low(hhdm), Covered(s), va);
  }

  lemma DirectBytes(vm: AddressSpaces, hhdm: nat, s: seq<Range>, r: seq<Range>, phys: nat)
    requires DirectOk(vm, Low(hhdm), Covered(s)) && Ranges(s) && hhdm % LARGE == 0
             && Low(hhdm) + phys / PAGE < 0x10_0000_0000
    requires forall p: nat :: Covers(s, p) <==> Covers(r, p)
    ensures Walk(vm.mem, vm.kernel, hhdm + phys) == if Covers(r, phys) then Some(phys) else None
    ensures vm.Seen(vm.kernel, PageOf(hhdm + phys)) == if Covers(r, phys) then Some(Mapping(phys / PAGE, RW)) else None
  {
    hide VmOk, NoGiant, Maps, TablesUsed, PageOf, Covers, Low, Ranges;
    var va := PageOf(hhdm + phys);
    RootIsRoot(vm.mem, vm.loc, vm.at, vm.leaf, vm.held, vm.kernel, vm.free);
    NotLarge(vm.mem, vm.loc, vm.at, vm.leaf, vm.held, vm.kernel, vm.free, vm.kernel, va.i0);
    assert Covers(s, phys) <==> Covers(r, phys);
    if Get(vm.mem, vm.kernel, va.i0).bit7 {
      AbsentRoot(vm.mem, vm.kernel, hhdm, s, phys);
    } else {
      DirectByte(vm.mem, vm.kernel, hhdm, s, phys);
    }
  }

  lemma WalkAbsent(mem: Mem, root: nat, virt: nat)
    requires !Get(mem, root, PageOf(virt).i0).present
    ensures Walk(mem, root, virt) == None && View(mem, 0, root, PageOf(virt)) == None
  {
  }

  lemma AbsentRoot(mem: Mem, kernel: nat, hhdm: nat, s: seq<Range>, phys: nat)
    requires Maps(mem, kernel, Low(hhdm), Covered(s)) && Ranges(s) && hhdm % LARGE == 0
    requires Low(hhdm) + phys / PAGE < 0x10_0000_0000 && !Get(mem, kernel, PageOf(hhdm + phys).i0).present
    ensures Walk(mem, kernel, hhdm + phys) == None && View(mem, 0, kernel, PageOf(hhdm + phys)) == None
            && !Covers(s, phys)
  {
    hide Covers, VaN, Num, PageOf, View, Walk, Get;
    var q := phys / PAGE;
    var va := VaN(hhdm / PAGE + q);
    PageOfN(hhdm + phys);
    HhdmParts(hhdm, phys);
    WalkAbsent(mem, kernel, hhdm + phys);
    Window(hhdm / PAGE, q);
    CoversPage(s, phys);
    assert View(mem, 0, kernel, va) == Direct(Low(hhdm), Covered(s), va);
  }

  /** Merge the ranges of the memory map and map them: afterwards the direct map translates exactly the
      covered addresses, each to itself. */
  method BuildDirectMap(vm: AddressSpaces, hhdm: nat, a: array<Range>, ghost top: nat)
    requires Ranges(a[..]) && (forall p: nat | Covers(a[..], p) :: p < top * PAGE)
    requires hhdm % LARGE == 0 && Low(hhdm) + top <= 0x10_0000_0000
    requires DirectOk(vm, Low(hhdm), iset{}) && Enough(Needed(vm.kernel, hhdm / PAGE, a[..], top), vm.at, vm.free)
    modifies vm, a
    ensures vm.Valid()
    ensures forall phys: nat | Low(hhdm) + phys / PAGE < 0x10_0000_0000 ::
              && Walk(vm.mem, vm.kernel, hhdm + phys) == (if Covers(old(a[..]), phys) then Some(phys) else None)
              && vm.Seen(vm.kernel, PageOf(hhdm + phys)) ==
                   if Covers(old(a[..]), phys) then Some(Mapping(phys / PAGE, RW)) else None
  {
    hide DirectOk, Low, Covered, Walk, Apart, Needed, Enough, Covers;
    var n := MergeRanges(a);
    EndsBelow(a[..n], top);
    NeededSame(vm.kernel, hhdm / PAGE, a[..n], old(a[..]), top);
    MapRanges(vm, hhdm, a, n, top);
    ghost var s, r := a[..n], old(a[..]);
    forall phys: nat | Low(hhdm) + phys / PAGE < 0x10_0000_0000
      ensures Walk(vm.mem, vm.kernel, hhdm + phys) == if Covers(r, phys) then Some(phys) else None
      ensures vm.Seen(vm.kernel, PageOf(hhdm + phys)) ==
                if Covers(r, phys) then Some(Mapping(phys / PAGE, RW)) else None
    {
      DirectBytes(vm, hhdm, s, r, phys);
    }
    DirectValid(vm, hhdm, s);
  }

  lemma DirectValid(vm: AddressSpaces, hhdm: nat, s: seq<Range>)
    requires DirectOk(vm, Low(hhdm), Covered(s))
    ensures vm.Valid()
  {
  }

  lemma EndsBelow(s: seq<Range>, top: nat)
    requires Ranges(s) && forall p: nat | Covers(s, p) :: p < top * PAGE
    ensures forall i | 0 <= i < |s| :: s[i].1 <= top * PAGE
  {
    forall i | 0 <= i < |s| ensures s[i].1 <= top * PAGE {
      assert s[i].0 <= s[i].1 - 1 < s[i].1;
      assert Covers(s, s[i].1 - 1);
    }
  }
}
