/** Loading an executable: frames for every page, the file's bytes copied in, everything mapped at the end. */
module ElfLoading {
  import opened Wrappers
  import opened Bytes
  import opened ElfHeaders
  import opened PageEntries
  import opened PageTables
  import opened PageOwners
  import opened PageSteps
  import opened PageSpaces
  import opened VirtualMemory
  import opened PageNumbers
  import opened ProcessPages

  // ------------------------------------------------- what memory should hold

  predicate InFile(s: Segment, x: nat) { s.vaddr <= x < s.vaddr + s.filesz }

  /** The byte that the segments put at address `x`: file data, or zero. */
  function FileByte(image: seq<Byte>, segs: seq<Segment>, x: nat): Byte
  {
    if segs == [] then 0
    else
      var s := segs[|segs| - 1];
      if InFile(s, x) && s.offset + (x - s.vaddr) < |image| then image[s.offset + (x - s.vaddr)]
      else FileByte(image, segs[..|segs| - 1], x)
  }

  /** Segments that do not overlap put each file byte where the headers say ... */
  lemma {:induction false} FileByteIn(image: seq<Byte>, segs: seq<Segment>, i: nat, x: nat)
    requires i < |segs| && InFile(segs[i], x) && (forall k | 0 <= k < |segs| :: SegmentOk(|image|, segs[k]))
             && NoOverlap(segs)
    ensures segs[i].offset + (x - segs[i].vaddr) < |image| && FileByte(image, segs, x)
            == image[segs[i].offset + (x - segs[i].vaddr)]
    decreases |segs|
  {
    assert SegmentOk(|image|, segs[i]);
    if i < |segs| - 1 {
      assert !Overlaps(segs[i], segs[|segs| - 1]);
      assert SegmentOk(|image|, segs[|segs| - 1]);
      FileByteIn(image, segs[..|segs| - 1], i, x);
    }
  }

  /** ... and zero everywhere else. */
  lemma {:induction false} FileByteOut(image: seq<Byte>, segs: seq<Segment>, x: nat)
    requires forall k | 0 <= k < |segs| :: !InFile(segs[k], x)
    ensures FileByte(image, segs, x) == 0
    decreases |segs|
  {
    if segs != [] {
      assert !InFile(segs[|segs| - 1], x);
      FileByteOut(image, segs[..|segs| - 1], x);
    }
  }

  predicate Touches(s: Segment, n: nat) { FirstPage(s) <= n < EndPage(s) }

  ghost predicate Touched(segs: seq<Segment>, n: nat) { exists i :: 0 <= i < |segs| && Touches(segs[i], n) }

  ghost predicate AnyWritable(segs: seq<Segment>, n: nat)
  {
    exists i :: 0 <= i < |segs| && Touches(segs[i], n) && segs[i].writable
  }

  ghost predicate AnyExecutable(segs: seq<Segment>, n: nat)
  {
    exists i :: 0 <= i < |segs| && Touches(segs[i], n) && segs[i].executable
  }

  lemma TouchedMore(segs: seq<Segment>, s: Segment, n: nat)
    ensures Touched(segs + [s], n) <==> Touched(segs, n) || Touches(s, n)
    ensures AnyWritable(segs + [s], n) <==> AnyWritable(segs, n) || (Touches(s, n) && s.writable)
    ensures AnyExecutable(segs + [s], n) <==> AnyExecutable(segs, n) || (Touches(s, n) && s.executable)
  {
    var t := segs + [s];
    assert t[|segs|] == s;
    if Touched(segs, n) {
      var i :| 0 <= i < |segs| && Touches(segs[i], n);
      assert t[i] == segs[i];
    }
    if AnyWritable(segs, n) {
      var i :| 0 <= i < |segs| && Touches(segs[i], n) && segs[i].writable;
      assert t[i] == segs[i];
    }
    if AnyExecutable(segs, n) {
      var i :| 0 <= i < |segs| && Touches(segs[i], n) && segs[i].executable;
      assert t[i] == segs[i];
    }
  }

  lemma FileInPage(s: Segment, x: nat)
    requires InFile(s, x) && s.filesz <= s.memsz
    ensures Touches(s, x / PAGE)
  {
  }

  /** A page that no segment touches holds no file byte. */
  lemma {:induction false} UntouchedZero(image: seq<Byte>, segs: seq<Segment>, n: nat, o: nat)
    requires !Touched(segs, n) && o < PAGE && forall k | 0 <= k < |segs| :: segs[k].filesz <= segs[k].memsz
    ensures FileByte(image, segs, n * PAGE + o) == 0
  {
    forall k | 0 <= k < |segs| ensures !InFile(segs[k], n * PAGE + o) {
      assert (n * PAGE + o) / PAGE == n;
      if InFile(segs[k], n * PAGE + o) {
        FileInPage(segs[k], n * PAGE + o);
      }
    }
    FileByteOut(image, segs, n * PAGE + o);
  }

  // ------------------------------------------------------ pages being built

  /** One page of the image while it is being assembled. */
  datatype Page = Page(phys: nat, writable: bool, executable: bool)

  type Pages = map<nat, Page>

  type Frames = map<nat, seq<Byte>>

  /** No two pages share a frame, and none of the frames is free. */
  ghost predicate Own(pages: Pages, free: set<nat>)
  {
    && (forall a, b | a in pages && b in pages && pages[a].phys == pages[b].phys :: a == b)
    && (forall a | a in pages :: pages[a].phys !in free)
  }

  ghost function Phys(pages: Pages): set<nat> { set n | n in pages :: pages[n].phys }

  /** The frames hold what the segments say. */
  ghost predicate Filled(image: seq<Byte>, segs: seq<Segment>, pages: Pages, data: Frames)
  {
    forall n | n in pages :: PageFilled(image, segs, pages[n].phys, n, data)
  }

  ghost predicate PageFilled(image: seq<Byte>, segs: seq<Segment>, phys: nat, n: nat, data: Frames)
  {
    && phys in data && |data[phys]| == PAGE
    && forall o | 0 <= o < PAGE :: data[phys][o] == FileByte(image, segs, n * PAGE + o)
  }

  /** The pages of the segments, with the union of their permissions. */
  ghost predicate Covered(segs: seq<Segment>, pages: Pages)
  {
    && (forall n: nat :: n in pages <==> Touched(segs, n))
    && (forall n | n in pages ::
         (pages[n].writable <==> AnyWritable(segs, n))
         && (pages[n].executable <==> AnyExecutable(segs, n)))
  }

  /** The same, with segment `s` treated up to page `upto`. */
  ghost predicate CoveredTo(segs: seq<Segment>, s: Segment, upto: nat, pages: Pages)
  {
    && (forall n: nat :: n in pages <==> Touched(segs, n) || FirstPage(s) <= n < upto)
    && (forall n | n in pages ::
          && (pages[n].writable <==> AnyWritable(segs, n) || (FirstPage(s) <= n < upto && s.writable))
          && (pages[n].executable <==> AnyExecutable(segs, n) || (FirstPage(s) <= n < upto && s.executable)))
  }

  lemma CoverStart(segs: seq<Segment>, s: Segment, pages: Pages)
    requires Covered(segs, pages)
    ensures CoveredTo(segs, s, FirstPage(s), pages)
  {
  }

  lemma CoverEnd(segs: seq<Segment>, s: Segment, pages: Pages)
    requires CoveredTo(segs, s, EndPage(s), pages)
    ensures Covered(segs + [s], pages)
  {
    hide Touched, AnyWritable, AnyExecutable;
    forall n: nat ensures n in pages <==> Touched(segs + [s], n) {
      TouchedMore(segs, s, n);
    }
    forall n | n in pages
      ensures (pages[n].writable <==> AnyWritable(segs + [s], n))
              && (pages[n].executable <==> AnyExecutable(segs + [s], n))
    {
      TouchedMore(segs, s, n);
    }
  }

  lemma CoverOld(segs: seq<Segment>, s: Segment, n: nat, pages: Pages)
    requires CoveredTo(segs, s, n, pages) && n in pages && FirstPage(s) <= n
    ensures var p := pages[n];
            CoveredTo(segs, s, n + 1, pages[n := Page(p.phys, p.writable || s.writable, p.executable || s.executable)])
  {
    hide Touched, AnyWritable, AnyExecutable;
  }

  lemma CoverNew(segs: seq<Segment>, s: Segment, n: nat, phys: nat, pages: Pages)
    requires CoveredTo(segs, s, n, pages) && n !in pages && FirstPage(s) <= n
    ensures CoveredTo(segs, s, n + 1, pages[n := Page(phys, s.writable, s.executable)])
  {
  }

  /** The pages that the segments touch. */
  ghost function TouchedPages(segs: seq<Segment>): (r: set<nat>)
    ensures forall n: nat :: n in r <==> Touched(segs, n)
  {
    if segs == [] then {}
    else
      var init, s := segs[..|segs| - 1], segs[|segs| - 1];
      var r := TouchedPages(init) + (set n: nat | n < EndPage(s) && Touches(s, n));
      assert forall n: nat :: Touched(segs, n) <==> Touched(init, n) || Touches(s, n) by {
        assert segs == init + [s];
        forall n: nat ensures Touched(segs, n) <==> Touched(init, n) || Touches(s, n) {
          TouchedMore(init, s, n);
        }
      }
      r
  }

  /** A page was still missing when the frames ran out. */
  ghost predicate RanOut(segs: seq<Segment>, pages: Pages, free: set<nat>)
  {
    && free == {} && (forall n | n in pages :: n in TouchedPages(segs))
    && exists n :: n in TouchedPages(segs) && n !in pages
  }

  /** What becomes of the segments when `frames` are free: too few frames, a page that would be writable and
      executable, or success. */
  ghost function Outcome(segs: seq<Segment>, frames: nat): Result<(), ElfError>
  {
    if frames < |TouchedPages(segs)| then Err(NoMemory)
    else if exists n :: AnyWritable(segs, n) && AnyExecutable(segs, n) then Err(WritableExecutable)
    else Ok(())
  }

  lemma RanOutHere(segs: seq<Segment>, s: Segment, n: nat, pages: Pages)
    requires CoveredTo(segs, s, n, pages) && n !in pages && FirstPage(s) <= n < EndPage(s)
    ensures RanOut(segs + [s], pages, {})
  {
  }

  lemma RanOutSoFar(segs: seq<Segment>, i: nat, pages: Pages, free: set<nat>)
    requires i < |segs| && RanOut(segs[..i] + [segs[i]], pages, free)
    ensures RanOut(segs, pages, free)
  {
    var t := segs[..i] + [segs[i]];
    forall n | n in TouchedPages(t) ensures n in TouchedPages(segs) {
      var k :| 0 <= k < |t| && Touches(t[k], n);
      assert t[k] == segs[k];
    }
    var n :| n in TouchedPages(t) && n !in pages;
    assert n in TouchedPages(segs);
  }

  lemma {:induction false} AtMost(pages: Pages, keys: set<nat>)
    requires keys <= pages.Keys
    ensures |PhysAt(pages, keys)| <= |keys|
    decreases keys
  {
    if keys == {} {
      assert PhysAt(pages, keys) == {};
    } else {
      var n :| n in keys;
      AtMost(pages, keys - {n});
      PhysMore(pages, keys - {n}, n);
      assert keys - {n} + {n} == keys;
    }
  }

  lemma RanOutShort(segs: seq<Segment>, pages: Pages, free: set<nat>)
    requires RanOut(segs, pages, free)
    ensures |free + Phys(pages)| < |TouchedPages(segs)|
  {
    var n :| n in TouchedPages(segs) && n !in pages;
    AtMost(pages, pages.Keys);
    assert free + Phys(pages) == PhysAt(pages, pages.Keys);
    SubsetSize(pages.Keys, TouchedPages(segs) - {n});
  }

  lemma BothUnion(segs: seq<Segment>, pages: Pages)
    requires Covered(segs, pages)
    ensures (exists n :: n in pages && pages[n].writable && pages[n].executable) <==>
            exists n :: AnyWritable(segs, n) && AnyExecutable(segs, n)
  {
    hide Touched, AnyWritable, AnyExecutable;
    forall n | AnyWritable(segs, n) && AnyExecutable(segs, n) ensures n in pages && pages[n].writable
      && pages[n].executable {
      WritableTouched(segs, n);
    }
  }

  lemma WritableTouched(segs: seq<Segment>, n: nat)
    requires AnyWritable(segs, n)
    ensures Touched(segs, n)
  {
  }

  lemma {:induction false} PhysSize(pages: Pages, keys: set<nat>, free: set<nat>)
    requires Own(pages, free) && keys <= pages.Keys
    ensures |PhysAt(pages, keys)| == |keys|
    decreases keys
  {
    if keys == {} {
      assert PhysAt(pages, keys) == {};
    } else {
      var n :| n in keys;
      PhysSize(pages, keys - {n}, free);
      PhysMore(pages, keys - {n}, n);
      NotYetFree(pages, free, keys - {n}, n);
      assert keys - {n} + {n} == keys;
    }
  }

  /** A frame for every page has been found. */
  lemma EnoughForPages(segs: seq<Segment>, pages: Pages, free: set<nat>)
    requires Own(pages, free) && Covered(segs, pages)
    ensures TouchedPages(segs) == pages.Keys && |free + Phys(pages)| == |free| + |TouchedPages(segs)|
            && free !! Phys(pages)
  {
    hide Touched;
    PhysSize(pages, pages.Keys, free);
    assert Phys(pages) == PhysAt(pages, pages.Keys);
    assert forall n: nat :: n in TouchedPages(segs) <==> n in pages.Keys;
  }

  lemma MappablePages(segs: seq<Segment>, len: nat, pages: Pages, mem: Mem, loc: Places, leaf: Places, free0: set<nat>,
                      free: set<nat>, s: nat)
    requires Own(pages, free) && Covered(segs, pages) && free0 == free + Phys(pages) && Spare(loc, leaf, free0)
             && LowerEmpty(mem, s)
    requires (forall k | 0 <= k < |segs| :: SegmentOk(len, segs[k]))
    ensures CanMap(mem, loc, leaf, free, s, LayoutOf(pages)) && LayoutOf(pages).Keys == pages.Keys
  {
    hide View, PageOf, SegmentOk, FlagsOf;
    forall n | n in pages ensures n < USER_PAGES && UserFlags(FlagsOf(pages[n].writable, pages[n].executable))
      && View(mem, 0, s, UserVa(n)).None? {
      var k :| 0 <= k < |segs| && Touches(segs[k], n);
      PageBelow(len, segs[k], n);
      FlagsKnown(pages[n].writable, pages[n].executable);
      VaOfPage(n);
      UserPage(n * 0x1000);
    }
    forall n | n in pages ensures pages[n].phys in free0 {
    }
  }

  lemma PageBelow(len: nat, s: Segment, n: nat)
    requires SegmentOk(len, s) && Touches(s, n)
    ensures n < USER_PAGES && n * 0x1000 < USER_SPACE_END
  {
  }

  lemma FlagsKnown(writable: bool, executable: bool)
    ensures UserFlags(FlagsOf(writable, executable))
  {
  }

  /** In a process that has no tables yet any page needs three of them, so frames for the pages alone are
      never enough: then the load cannot succeed. */
  lemma {:induction false} Shortfall(s: nat, keys: set<nat>, at: Tables)
    requires keys != {} && forall p | p in at && p.root == s :: p.path == P0
    ensures |TablesOf(s, keys) - at.Keys| >= 3
  {
    hide UserVa;
    var n :| n in keys;
    var va := UserVa(n);
    var p1, p2, p3 := Place(s, PathTo(va, 1)), Place(s, PathTo(va, 2)), Place(s, PathTo(va, 3));
    CountMissing(at.Keys, s, va);
    TablesOfLess(s, keys, n);
    assert p1 !in at && p2 !in at && p3 !in at;
    SubsetSize(TablePlaces(s, va) - at.Keys, TablesOf(s, keys) - at.Keys);
  }

  /** Where the frames went: into pages and into new tables, and nowhere twice. */
  ghost predicate TookFrames(free: set<nat>, taken: set<nat>, free': set<nat>, taken': set<nat>, frames: set<nat>)
  {
    var tables := taken' - taken;
    free == free' + frames + tables && free' !! frames && free' !! tables && frames !! tables
  }

  lemma FreeApart(mem: Mem, loc: Places, at: Tables, leaf: Places, held: Held, kernel: nat, free: set<nat>)
    requires VmOk(mem, loc, at, leaf, held, kernel, free)
    ensures Spare(loc, leaf, free) && free !! loc.Keys
  {
    hide TablesOk, Owned;
  }

  lemma EnoughSplit(need: set<Place>, at: Tables, free1: set<nat>, free0: set<nat>, touched: set<nat>)
    requires |free0| == |free1| + |touched|
    ensures Enough(need, at, free1) <==> |touched| + |need - at.Keys| <= |free0|
  {
  }

  lemma Accounts(free0: set<nat>, loc0: Places, at0: Tables, free1: set<nat>, free: set<nat>, loc: Places, at: Tables,
                 frames: set<nat>, need: set<Place>)
    requires free0 == free1 + frames && free1 !! frames && free0 !! loc0.Keys
    requires Kept(loc0, free1, loc, free) && Made(at0, free1, at, free, need)
    ensures TookFrames(free0, loc0.Keys, free, loc.Keys, frames) && |loc.Keys - loc0.Keys| == |need - at0.Keys|
  {
    hide TookFrames;
    NewTables(free1, loc0.Keys, free, loc.Keys);
    Took(free0, free1, frames, loc0.Keys, free, loc.Keys);
  }

  lemma Took(free0: set<nat>, free1: set<nat>, frames: set<nat>, taken0: set<nat>, free: set<nat>, taken: set<nat>)
    requires free0 == free1 + frames && free1 !! frames && free <= free1 && taken - taken0 == free1 - free
    ensures TookFrames(free0, taken0, free, taken, frames)
  {
    assert free1 == free + (free1 - free);
  }

  lemma NewTables(free1: set<nat>, taken0: set<nat>, free: set<nat>, taken: set<nat>)
    requires free1 !! taken0 && free <= free1 && taken == taken0 + (free1 - free)
    ensures taken - taken0 == free1 - free && |free1| == |free| + |taken - taken0| && free1 == free + (taken - taken0)
  {
    assert taken - taken0 == free1 - free;
    assert free1 == free + (free1 - free);
  }

  lemma OwnNew(pages: Pages, free: set<nat>, n: nat, phys: nat, w: bool, x: bool)
    requires Own(pages, free) && phys in free && n !in pages
    ensures Own(pages[n := Page(phys, w, x)], free - {phys}) && Phys(pages[n := Page(phys, w, x)])
            == Phys(pages) + {phys}
  {
    var pages' := pages[n := Page(phys, w, x)];
    forall f | f in Phys(pages) + {phys} ensures f in Phys(pages') {
      if f in Phys(pages) {
        var a :| a in pages && pages[a].phys == f;
        assert a in pages' && pages'[a].phys == f;
      } else {
        assert n in pages' && pages'[n].phys == f;
      }
    }
  }

  lemma OwnSame(pages: Pages, free: set<nat>, n: nat, p: Page)
    requires Own(pages, free) && n in pages && p.phys == pages[n].phys
    ensures Own(pages[n := p], free) && Phys(pages[n := p]) == Phys(pages)
  {
    var pages' := pages[n := p];
    forall f | f in Phys(pages) ensures f in Phys(pages') {
      var a :| a in pages && pages[a].phys == f;
      assert a in pages' && pages'[a].phys == f;
    }
    forall f | f in Phys(pages') ensures f in Phys(pages) {
      var a :| a in pages' && pages'[a].phys == f;
      assert a in pages && pages[a].phys == f;
    }
  }

  lemma FilledNew(image: seq<Byte>, segs: seq<Segment>, pages: Pages, data: Frames, n: nat, phys: nat, w: bool, x: bool)
    requires Filled(image, segs, pages, data) && (forall a | a in pages :: pages[a].phys != phys)
    requires !Touched(segs, n) && forall k | 0 <= k < |segs| :: segs[k].filesz <= segs[k].memsz
    ensures Filled(image, segs, pages[n := Page(phys, w, x)], data[phys := Zeros(PAGE)])
  {
    var pages', data' := pages[n := Page(phys, w, x)], data[phys := Zeros(PAGE)];
    forall m | m in pages' ensures PageFilled(image, segs, pages'[m].phys, m, data') {
      if m == n {
        forall o | 0 <= o < PAGE ensures data'[phys][o] == FileByte(image, segs, n * PAGE + o) {
          UntouchedZero(image, segs, n, o);
        }
      } else {
        assert PageFilled(image, segs, pages[m].phys, m, data);
      }
    }
  }

  // ------------------------------------------------------------ copying a piece

  /** Segment `s` with only its first `n` file bytes. */
  function Cut(s: Segment, n: nat): Segment { s.(filesz := n) }

  lemma CutByte(image: seq<Byte>, segs: seq<Segment>, s: Segment, n: nat, len: nat, x: nat)
    requires s.offset + n + len <= |image|
    ensures FileByte(image, segs + [Cut(s, n + len)], x) ==
            if s.vaddr + n <= x < s.vaddr + n + len then image[s.offset + (x - s.vaddr)]
              else FileByte(image, segs + [Cut(s, n)], x)
  {
  }

  lemma CutNone(image: seq<Byte>, segs: seq<Segment>, s: Segment, pages: Pages, data: Frames)
    requires Filled(image, segs, pages, data)
    ensures Filled(image, segs + [Cut(s, 0)], pages, data)
  {
  }

  /** One copy: part of the file into one page. */
  lemma FilledPiece(image: seq<Byte>, segs: seq<Segment>, s: Segment, pages: Pages, free: set<nat>, data: Frames,
                    done: nat, len: nat)
    requires Own(pages, free) && Filled(image, segs + [Cut(s, done)], pages, data)
    requires s.offset + done + len <= |image|
    requires var dst := s.vaddr + done; dst / PAGE in pages && len <= PAGE - dst % PAGE
    ensures var dst := s.vaddr + done; var phys := pages[dst / PAGE].phys;
            && phys in data && |data[phys]| == PAGE
            && Filled(image, segs + [Cut(s, done + len)], pages,
                      data[phys := Splice(data[phys], dst % PAGE, image[s.offset + done..s.offset + done + len])])
  {
    hide FileByte;
    var dst := s.vaddr + done;
    var p := dst / PAGE;
    var phys := pages[p].phys;
    assert PageFilled(image, segs + [Cut(s, done)], phys, p, data);
    var data' := data[phys := Splice(data[phys], dst % PAGE, image[s.offset + done..s.offset + done + len])];
    forall n | n in pages ensures PageFilled(image, segs + [Cut(s, done + len)], pages[n].phys, n, data') {
      assert PageFilled(image, segs + [Cut(s, done)], pages[n].phys, n, data);
      forall o | 0 <= o < PAGE ensures data'[pages[n].phys][o]
        == FileByte(image, segs + [Cut(s, done + len)], n * PAGE + o) {
        CutByte(image, segs, s, done, len, n * PAGE + o);
        PieceByte(dst, len, n, o);
      }
    }
  }

  /** Which bytes of which page a piece covers. */
  lemma PieceByte(dst: nat, len: nat, n: nat, o: nat)
    requires len <= PAGE - dst % PAGE && o < PAGE
    ensures dst <= n * PAGE + o < dst + len <==> n == dst / PAGE && dst % PAGE <= o < dst % PAGE + len
  {
  }

  // ------------------------------------------------------------------ the loader

  /** The address space holds exactly the segments' pages: each file byte where its segment says, zeros
      everywhere else, and the union of the permissions, never writable and executable together. */
  ghost predicate Loaded(image: seq<Byte>, segs: seq<Segment>, space: Pages, data: Frames)
  {
    && (forall n: nat :: n in space <==> Touched(segs, n))
    && (forall n | n in space :: PageFilled(image, segs, space[n].phys, n, data))
    && (forall n | n in space ::
         (space[n].writable <==> AnyWritable(segs, n))
         && (space[n].executable <==> AnyExecutable(segs, n)))
    && (forall n | n in space :: !(space[n].writable && space[n].executable))
    && (forall a, b | a in space && b in space && space[a].phys == space[b].phys :: a == b)
  }

  /** Flags of a user page; the loader maps no page both writable and executable. */
  function FlagsOf(writable: bool, executable: bool): Attrs
  {
    if writable && !executable then RW.(user := true) else if executable && !writable then RX.(user := true)
      else RO.(user := true)
  }

  function LayoutOf(pages: Pages): Layout
  {
    map n | n in pages :: Mapping(pages[n].phys, FlagsOf(pages[n].writable, pages[n].executable))
  }

  // ------------------------------------------------- what the process will see

  /** Some byte of the segment lies in page `n`. */
  ghost predicate Reaches(s: Segment, n: nat) { exists x :: s.vaddr <= x < s.vaddr + s.memsz && x / PAGE == n }

  lemma TouchesIff(s: Segment, n: nat)
    requires s.memsz > 0
    ensures Touches(s, n) <==> Reaches(s, n)
  {
    if Touches(s, n) {
      var x := if s.vaddr < n * PAGE then n * PAGE else s.vaddr;
      assert s.vaddr <= x < s.vaddr + s.memsz && x / PAGE == n;
    }
  }

  /** The translation of page `n`: present if a segment reaches it, open to the process, writable or
      executable if one of those segments is. */
  ghost predicate PageSeen(segs: seq<Segment>, v: Option<Mapping>, n: nat)
  {
    && (v.Some? <==> exists i :: 0 <= i < |segs| && Reaches(segs[i], n))
    && (v.Some? ==>
          && v.value.attrs.user
          && (v.value.attrs.writable <==> exists i :: 0 <= i < |segs| && Reaches(segs[i], n) && segs[i].writable)
          && (!v.value.attrs.nx <==> exists i :: 0 <= i < |segs| && Reaches(segs[i], n) && segs[i].executable))
  }

  /** The byte at address `x`: the image's, wherever the file part of a segment lies, and zero elsewhere. */
  ghost predicate ByteSeen(image: seq<Byte>, segs: seq<Segment>, b: Byte, x: nat)
  {
    && (forall i | 0 <= i < |segs| && segs[i].vaddr <= x < segs[i].vaddr + segs[i].filesz ::
          segs[i].offset + (x - segs[i].vaddr) < |image| && b == image[segs[i].offset + (x - segs[i].vaddr)])
    && ((forall i | 0 <= i < |segs| :: !(segs[i].vaddr <= x < segs[i].vaddr + segs[i].filesz)) ==> b == 0)
  }

  /** What process `s` sees of its own half, page by page and byte by byte. */
  ghost predicate ProcessSees(image: seq<Byte>, segs: seq<Segment>, mem: Mem, s: nat, space: Pages, data: Frames)
  {
    && (forall n | 0 <= n < USER_PAGES :: PageSeen(segs, View(mem, 0, s, PageOf(n * PAGE)), n))
    && (forall n | n in space :: n < USER_PAGES)
    && (forall n | 0 <= n < USER_PAGES :: n in space <==> View(mem, 0, s, PageOf(n * PAGE)).Some?)
    && (forall n | n in space :: space[n].phys == View(mem, 0, s, PageOf(n * PAGE)).value.frame)
    && (forall x | 0 <= x && x / PAGE in space ::
          && space[x / PAGE].phys in data && |data[space[x / PAGE].phys]| == PAGE
          && ByteSeen(image, segs, data[space[x / PAGE].phys][x % PAGE], x))
  }

  /** No translation changed but those of the pages `keys` of `s`. */
  ghost predicate OthersSame(kernel: nat, held: Held, mem: Mem, mem': Mem, s: nat, keys: set<nat>)
  {
    forall r, v | Space(kernel, held, r) && VaOk(v) && !(r == s && Num(v) in keys) ::
      View(mem', 0, r, v) == View(mem, 0, r, v)
  }

  lemma ReachesAny(segs: seq<Segment>, n: nat)
    requires forall k | 0 <= k < |segs| :: segs[k].memsz > 0
    ensures Touched(segs, n) <==> exists i :: 0 <= i < |segs| && Reaches(segs[i], n)
    ensures AnyWritable(segs, n) <==> exists i :: 0 <= i < |segs| && Reaches(segs[i], n) && segs[i].writable
    ensures AnyExecutable(segs, n) <==> exists i :: 0 <= i < |segs| && Reaches(segs[i], n) && segs[i].executable
  {
    hide Touches, Reaches;
    forall i | 0 <= i < |segs| ensures Touches(segs[i], n) <==> Reaches(segs[i], n) {
      TouchesIff(segs[i], n);
    }
  }

  lemma FlagsMean(writable: bool, executable: bool)
    requires !(writable && executable)
    ensures var a := FlagsOf(writable, executable); a.user && a.writable == writable && a.nx == !executable
  {
  }

  /** One page of the layout, as the process sees it. */
  lemma OneSeen(image: seq<Byte>, segs: seq<Segment>, space: Pages, data: Frames, kernel: nat, held: Held, mem: Mem,
                mem': Mem, s: nat, n: nat)
    requires Loaded(image, segs, space, data) && MapsAll(kernel, held, mem, mem', s, LayoutOf(space))
    requires LowerEmpty(mem, s) && s in held && n < USER_PAGES && forall k | 0 <= k < |segs| :: segs[k].memsz > 0
    ensures var v := View(mem', 0, s, PageOf(n * PAGE));
            PageSeen(segs, v, n) && (v.Some? <==> n in space) && (v.Some? ==> space[n].phys == v.value.frame)
  {
    hide PageOf, Num, View, FlagsOf, PageFilled, Touched, AnyWritable, AnyExecutable;
    NumberOf(n);
    UserPage(n * PAGE);
    ReachesAny(segs, n);
    assert Space(kernel, held, s);
    var va := UserVa(n);
    assert VaOk(va) && Num(va) == n;
    if n in space {
      FlagsMean(space[n].writable, space[n].executable);
    }
  }

  lemma SeenAll(image: seq<Byte>, entry: nat, segs: seq<Segment>, space: Pages, data: Frames, kernel: nat, held: Held,
                mem: Mem, mem': Mem, s: nat)
    requires Accepted(image, entry, segs) && Loaded(image, segs, space, data)
    requires MapsAll(kernel, held, mem, mem', s, LayoutOf(space)) && LowerEmpty(mem, s) && s in held
    ensures ProcessSees(image, segs, mem', s, space, data) && OthersSame(kernel, held, mem, mem', s, space.Keys)
  {
    hide Accepted, Loaded, LowerEmpty, PageSeen, ByteSeen, PageOf, View, SegmentOk, FlagsOf;
    AcceptedSizes(image, entry, segs);
    LoadedBelow(image, entry, segs, space, data);
    forall n | 0 <= n < USER_PAGES
      ensures var v := View(mem', 0, s, PageOf(n * PAGE));
              PageSeen(segs, v, n) && (v.Some? <==> n in space) && (v.Some? ==> space[n].phys == v.value.frame)
    {
      hide MapsAll;
      OneSeen(image, segs, space, data, kernel, held, mem, mem', s, n);
    }
    forall x | 0 <= x && x / PAGE in space
      ensures space[x / PAGE].phys in data && |data[space[x / PAGE].phys]| == PAGE
              && ByteSeen(image, segs, data[space[x / PAGE].phys][x % PAGE], x)
    {
      hide MapsAll;
      ByteIsSeen(image, entry, segs, space, data, x);
    }
  }

  lemma LoadedBelow(image: seq<Byte>, entry: nat, segs: seq<Segment>, space: Pages, data: Frames)
    requires Accepted(image, entry, segs) && Loaded(image, segs, space, data)
    ensures forall n | n in space :: n < USER_PAGES
  {
    hide Accepted, PageFilled, AnyWritable, AnyExecutable, SegmentOk, Touches;
    AcceptedSegments(image, entry, segs);
    forall n | n in space ensures n < USER_PAGES {
      var k :| 0 <= k < |segs| && Touches(segs[k], n);
      PageBelow(|image|, segs[k], n);
    }
  }

  lemma AcceptedSizes(image: seq<Byte>, entry: nat, segs: seq<Segment>)
    requires Accepted(image, entry, segs)
    ensures forall k | 0 <= k < |segs| :: segs[k].memsz > 0
  {
    hide Accepted;
    AcceptedSegments(image, entry, segs);
  }

  lemma ByteIsSeen(image: seq<Byte>, entry: nat, segs: seq<Segment>, space: Pages, data: Frames, x: nat)
    requires Accepted(image, entry, segs) && Loaded(image, segs, space, data) && x / PAGE in space
    ensures space[x / PAGE].phys in data && |data[space[x / PAGE].phys]| == PAGE
            && ByteSeen(image, segs, data[space[x / PAGE].phys][x % PAGE], x)
  {
    hide Accepted, Loaded;
    LoadedBytes(image, entry, segs, space, data, x);
  }

  /** The entry point lies in a page that the process may execute. */
  lemma EntrySeen(image: seq<Byte>, entry: nat, segs: seq<Segment>, mem: Mem, s: nat, space: Pages, data: Frames)
    requires Accepted(image, entry, segs) && ProcessSees(image, segs, mem, s, space, data)
    ensures var v := View(mem, 0, s, PageOf(entry)); v.Some? && v.value.attrs.user && !v.value.attrs.nx
  {
    hide PageOf, View, ByteSeen, AllOk, Loads, HeadersOf, NoOverlap, SegmentOk;
    var n := entry / PAGE;
    var i :| 0 <= i < |segs| && segs[i].executable && segs[i].vaddr <= entry < segs[i].vaddr + segs[i].memsz;
    assert Reaches(segs[i], n);
    EntryPage(image, entry, segs, i);
    assert PageSeen(segs, View(mem, 0, s, PageOf(n * PAGE)), n);
  }

  lemma EntryPage(image: seq<Byte>, entry: nat, segs: seq<Segment>, i: nat)
    requires Accepted(image, entry, segs) && i < |segs| && entry < segs[i].vaddr + segs[i].memsz
    ensures entry / PAGE < USER_PAGES && PageOf(entry / PAGE * PAGE) == PageOf(entry)
  {
    hide Accepted, PageOf, VaN;
    AcceptedSegments(image, entry, segs);
    PageOfN(entry);
    PageOfN(entry / PAGE * PAGE);
  }

  /** The process maps nothing of its own yet. */
  ghost predicate LowerEmpty(mem: Mem, s: nat)
  {
    forall va | VaOk(va) && va.i0 < KERNEL_START :: View(mem, 0, s, va) == None
  }

  class Loader {
    /** The frames and the page tables. */
    const vm: AddressSpaces
    /** What the frames of user pages hold. */
    var data: Frames
    /** Pages being assembled. */
    var pages: Pages

    constructor (memory: AddressSpaces)
      ensures vm == memory && data == map[]
    {
      vm, data, pages := memory, map[], map[];
    }

    method AllocZeroed() returns (r: Option<nat>)
      requires vm.Valid()
      modifies vm`free, `data
      ensures vm.Valid() && (r.None? <==> old(vm.free) == {})
      ensures r.None? ==> vm.free == old(vm.free) && data == old(data)
      ensures r.Some? ==>
                r.value in old(vm.free) && vm.free == old(vm.free) - {r.value}
                && data == old(data)[r.value := Zeros(PAGE)]
    {
      r := vm.AllocFrame();
      if r.Some? {
        data := data[r.value := Zeros(PAGE)];
      }
    }

    ghost predicate Building(image: seq<Byte>, segs: seq<Segment>, free0: set<nat>)
      reads this, vm
    {
      vm.Valid() && Own(pages, vm.free) && Filled(image, segs, pages, data) && free0 == vm.free + Phys(pages)
    }

    /** A frame for every page that `s` touches. */
    method AllocPages(image: seq<Byte>, ghost segs: seq<Segment>, s: Segment, ghost free0: set<nat>) returns (ok: bool)
      requires Building(image, segs, free0) && Covered(segs, pages) && forall k | 0 <= k < |segs| ::
               segs[k].filesz <= segs[k].memsz
      requires FirstPage(s) <= EndPage(s)
      modifies vm`free, `data, `pages
      ensures vm.Valid() && Own(pages, vm.free) && free0 == vm.free + Phys(pages)
      ensures ok ==> Building(image, segs, free0) && Covered(segs + [s], pages)
      ensures !ok ==> RanOut(segs + [s], pages, vm.free)
    {
      hide VmOk, Covered, CoveredTo, Own, Filled, Phys, PagesOf, RanOut;
      CoverStart(segs, s, pages);
      var n, last := FirstPage(s), EndPage(s);
      while n < last
        invariant FirstPage(s) <= n <= last
        invariant Building(image, segs, free0) && CoveredTo(segs, s, n, pages)
      {
        ok := AllocPage(image, segs, s, n, free0);
        if !ok { return; }
        n := n + 1;
      }
      CoverEnd(segs, s, pages);
      return true;
    }

    method AllocPage(image: seq<Byte>, ghost segs: seq<Segment>, s: Segment, n: nat, ghost free0: set<nat>)
        returns (ok: bool)
      requires Building(image, segs, free0) && CoveredTo(segs, s, n, pages) && FirstPage(s) <= n < EndPage(s)
      requires forall k | 0 <= k < |segs| :: segs[k].filesz <= segs[k].memsz
      modifies vm`free, `data, `pages
      ensures vm.Valid() && Own(pages, vm.free) && free0 == vm.free + Phys(pages)
      ensures ok ==> Building(image, segs, free0) && CoveredTo(segs, s, n + 1, pages)
      ensures !ok ==> RanOut(segs + [s], pages, vm.free)
    {
      hide VmOk, CoveredTo, Filled, Phys, RanOut;
      if n in pages {
        var p := pages[n];
        var p' := Page(p.phys, p.writable || s.writable, p.executable || s.executable);
        CoverOld(segs, s, n, pages);
        OwnSame(pages, vm.free, n, p');
        FilledSame(image, segs, pages, data, n, p');
        pages := pages[n := p'];
        return true;
      }
      var phys := AllocZeroed();
      if phys.None? {
        RanOutHere(segs, s, n, pages);
        return false;
      }
      var f := phys.value;
      NotTouched(segs, s, n, pages);
      CoverNew(segs, s, n, f, pages);
      OwnNew(pages, old(vm.free), n, f, s.writable, s.executable);
      FilledNew(image, segs, pages, old(data), n, f, s.writable, s.executable);
      pages := pages[n := Page(f, s.writable, s.executable)];
      return true;
    }

    /** Copy the file-backed bytes of `s` into its pages. */
    method CopySegment(image: seq<Byte>, ghost segs: seq<Segment>, s: Segment, ghost free0: set<nat>)
      requires Building(image, segs, free0) && Covered(segs + [s], pages) && SegmentOk(|image|, s)
      modifies `data
      ensures Building(image, segs + [s], free0)
    {
      hide VmOk, Covered, Own, Filled, Phys;
      CutNone(image, segs, s, pages, data);
      var copied := 0;
      while copied < s.filesz
        invariant 0 <= copied <= s.filesz && Filled(image, segs + [Cut(s, copied)], pages, data)
      {
        var dst := s.vaddr + copied;
        var page, inPage := dst / PAGE, dst % PAGE;
        var n := if s.filesz - copied < PAGE - inPage then s.filesz - copied else PAGE - inPage;
        FilePageThere(segs, s, pages, dst);
        FilledPiece(image, segs, s, pages, vm.free, data, copied, n);
        var phys := pages[page].phys;
        data := data[phys := Splice(data[phys], inPage, image[s.offset + copied..s.offset + copied + n])];
        copied := copied + n;
      }
      assert Cut(s, copied) == s;
    }

    /** All the segments, one after the other. On an error the pages tell what was allocated. */
    method Populate(image: seq<Byte>, segs: seq<Segment>, ghost free0: set<nat>) returns (r: Result<(), ElfError>)
      requires pages == map[] && free0 == vm.free && vm.Valid() && forall k | 0 <= k < |segs| ::
               SegmentOk(|image|, segs[k])
      modifies vm`free, `data, `pages
      ensures vm.Valid() && Own(pages, vm.free) && free0 == vm.free + Phys(pages)
      ensures r.Ok? ==>
                Building(image, segs, free0) && Covered(segs, pages)
                && (forall n | n in pages :: !(pages[n].writable && pages[n].executable))
      ensures r == Outcome(segs, |free0|)
    {
      hide VmOk, Covered, Own, Filled, Phys, RanOut, TouchedPages, AnyWritable, AnyExecutable;
      StartEmpty(image, data, vm.free);
      for i := 0 to |segs|
        invariant Building(image, segs[..i], free0) && Covered(segs[..i], pages)
      {
        SizesOk(image, segs, i);
        assert segs[..i + 1] == segs[..i] + [segs[i]];
        assert SegmentOk(|image|, segs[i]);
        var ok := AllocPages(image, segs[..i], segs[i], free0);
        if !ok {
          RanOutSoFar(segs, i, pages, vm.free);
          RanOutShort(segs, pages, vm.free);
          return Err(NoMemory);
        }
        CopySegment(image, segs[..i], segs[i], free0);
      }
      assert segs[..|segs|] == segs;
      EnoughForPages(segs, pages, vm.free);
      BothUnion(segs, pages);
      if exists n | n in pages.Keys :: pages[n].writable && pages[n].executable {
        return Err(WritableExecutable);
      }
      return Ok(());
    }

    /** Give back every frame allocated so far. None of them is free. */
    method FreePages()
      requires Own(pages, vm.free)
      modifies vm`free
      ensures vm.free == old(vm.free) + Phys(pages)
    {
      var keys := pages.Keys;
      while keys != {}
        invariant keys <= pages.Keys
        invariant vm.free == old(vm.free) + PhysAt(pages, pages.Keys - keys)
        decreases keys
      {
        var n :| n in keys;
        var f := pages[n].phys;
        NotYetFree(pages, old(vm.free), pages.Keys - keys, n);
        assert f !in vm.free;
        PhysMore(pages, pages.Keys - keys, n);
        assert pages.Keys - (keys - {n}) == pages.Keys - keys + {n};
        vm.FreeFrame(f);
        keys := keys - {n};
      }
      assert pages.Keys - keys == pages.Keys;
    }

    /** Load the executable into process `s`, which maps nothing yet. On an error nothing stays allocated or
        mapped. `None` is the panic of the source: the pages fit, but no frame is left for a page table. */
    method Load(image: seq<Byte>, s: nat)
        returns (r: Option<Result<nat, ElfError>>, ghost segs: seq<Segment>, ghost space: Pages)
      requires vm.Valid() && s in vm.held && LowerEmpty(vm.mem, s)
      modifies this, vm
      ensures vm.Valid() && vm.held == old(vm.held)
      ensures r.None? <==> && (exists e :: Accepted(image, e, segs)) && Outcome(segs, |old(vm.free)|).Ok?
                           && |old(vm.free)| < |TouchedPages(segs)| + |TablesOf(s,
                              TouchedPages(segs)) - old(vm.at).Keys|
      ensures r.Some? && r.value.Ok? ==>
                && Accepted(image, r.value.value, segs) && ProcessSees(image, segs, vm.mem, s, space, data)
                && OthersSame(vm.kernel, vm.held, old(vm.mem), vm.mem, s, space.Keys)
                && TookFrames(old(vm.free), old(vm.loc).Keys, vm.free, vm.loc.Keys, Phys(space))
                && |vm.loc.Keys - old(vm.loc).Keys| == |TablesOf(s, TouchedPages(segs)) - old(vm.at).Keys|
                && View(vm.mem, 0, s, PageOf(r.value.value)).Some?
                && var m := View(vm.mem, 0, s, PageOf(r.value.value)).value; m.attrs.user && !m.attrs.nx
      ensures r.Some? && r.value.Err? ==>
                && vm.mem == old(vm.mem) && vm.free == old(vm.free) && vm.loc == old(vm.loc) && vm.leaf == old(vm.leaf)
                && ((forall e, loads :: !Accepted(image, e, loads))
                    || ((exists e :: Accepted(image, e, segs)) && Outcome(segs, |vm.free|) == Err(r.value.error)))
    {
      hide VmOk, Loaded, Accepted, Own, Filled, Covered, Phys, Outcome, MapsAll, TookFrames, TablesOf, TouchedPages,
        Enough, LowerEmpty, Spare, LayoutOf, CanMap, Made, Kept, Owns, ProcessSees, OthersSame, View, PageOf;
      segs, space := [], map[];
      var p := Parse(image);
      if p.Err? { return Some(Err(p.error)), [], map[]; }
      var (entry, loads) := p.value;
      AcceptedSegments(image, entry, loads);
      FreeApart(vm.mem, vm.loc, vm.at, vm.leaf, vm.held, vm.kernel, vm.free);
      pages := map[];
      var populated := Populate(image, loads, vm.free);
      if populated.Err? {
        FreePages();
        return Some(Err(populated.error)), loads, map[];
      }
      MappablePages(loads, |image|, pages, vm.mem, vm.loc, vm.leaf, old(vm.free), vm.free, s);
      EnoughForPages(loads, pages, vm.free);
      LoadedFrom(image, loads, pages, data, vm.free);
      ghost var free1 := vm.free;
      EnoughSplit(TablesOf(s, pages.Keys), vm.at, free1, old(vm.free), TouchedPages(loads));
      var ok := MapAll(vm, s, LayoutOf(pages));
      if !ok { return None, loads, map[]; }
      Accounts(old(vm.free), old(vm.loc), old(vm.at), free1, vm.free, vm.loc, vm.at, Phys(pages),
        TablesOf(s, pages.Keys));
      SeenAll(image, entry, loads, pages, data, vm.kernel, vm.held, old(vm.mem), vm.mem, s);
      EntrySeen(image, entry, loads, vm.mem, s, pages, data);
      return Some(Ok(entry)), loads, pages;
    }
  }

  lemma FilledSame(image: seq<Byte>, segs: seq<Segment>, pages: Pages, data: Frames, n: nat, p: Page)
    requires Filled(image, segs, pages, data) && n in pages && p.phys == pages[n].phys
    ensures Filled(image, segs, pages[n := p], data)
  {
  }

  lemma NotTouched(segs: seq<Segment>, s: Segment, n: nat, pages: Pages)
    requires CoveredTo(segs, s, n, pages) && n !in pages
    ensures !Touched(segs, n)
  {
  }

  lemma FilePageThere(segs: seq<Segment>, s: Segment, pages: Pages, dst: nat)
    requires Covered(segs + [s], pages) && InFile(s, dst) && s.filesz <= s.memsz
    ensures dst / PAGE in pages
  {
    FileInPage(s, dst);
    TouchedMore(segs, s, dst / PAGE);
  }

  lemma StartEmpty(image: seq<Byte>, data: Frames, free: set<nat>)
    ensures Own(map[], free) && Filled(image, [], map[], data) && Phys(map[]) == {} && Covered([], map[])
  {
  }

  lemma SizesOk(image: seq<Byte>, segs: seq<Segment>, i: nat)
    requires i < |segs| && forall k | 0 <= k < |segs| :: SegmentOk(|image|, segs[k])
    ensures (forall k | 0 <= k < i :: segs[..i][k].filesz <= segs[..i][k].memsz)
            && FirstPage(segs[i]) <= EndPage(segs[i])
  {
  }

  ghost function PhysAt(pages: Pages, keys: set<nat>): set<nat>
    requires keys <= pages.Keys
  {
    set n | n in keys :: pages[n].phys
  }

  lemma PhysMore(pages: Pages, keys: set<nat>, n: nat)
    requires keys <= pages.Keys && n in pages
    ensures PhysAt(pages, keys + {n}) == PhysAt(pages, keys) + {pages[n].phys}
  {
  }

  lemma NotYetFree(pages: Pages, free: set<nat>, keys: set<nat>, n: nat)
    requires Own(pages, free) && keys <= pages.Keys && n in pages && n !in keys
    ensures pages[n].phys !in free && pages[n].phys !in PhysAt(pages, keys)
  {
  }

  lemma AcceptedSegments(image: seq<Byte>, entry: nat, segs: seq<Segment>)
    requires Accepted(image, entry, segs)
    ensures forall k | 0 <= k < |segs| :: SegmentOk(|image|, segs[k])
  {
    hide SegmentOk, Loads, HeadersOf;
    LoadsOk(|image|, HeadersOf(image));
  }

  lemma LoadedFrom(image: seq<Byte>, segs: seq<Segment>, pages: Pages, data: Frames, free: set<nat>)
    requires Own(pages, free) && Filled(image, segs, pages, data) && Covered(segs, pages)
    requires forall n | n in pages :: !(pages[n].writable && pages[n].executable)
    ensures Loaded(image, segs, pages, data) && Phys(pages) !! free
  {
  }

  /** The entry point lies in a page that may be executed. */
  lemma EntryMapped(image: seq<Byte>, entry: nat, segs: seq<Segment>, space: Pages, data: Frames)
    requires Accepted(image, entry, segs) && Loaded(image, segs, space, data)
    ensures entry / PAGE in space && space[entry / PAGE].executable
  {
    hide PageFilled, AllOk, Loads, HeadersOf, NoOverlap;
    var i :| 0 <= i < |segs| && segs[i].executable && segs[i].vaddr <= entry < segs[i].vaddr + segs[i].memsz;
    assert Touches(segs[i], entry / PAGE);
    assert Touched(segs, entry / PAGE) && AnyExecutable(segs, entry / PAGE);
  }

  /** What a loaded process finds in memory, segment by segment. */
  lemma LoadedBytes(image: seq<Byte>, entry: nat, segs: seq<Segment>, space: Pages, data: Frames, x: nat)
    requires Accepted(image, entry, segs) && Loaded(image, segs, space, data) && x / PAGE in space
    ensures var phys := space[x / PAGE].phys;
            && phys in data && |data[phys]| == PAGE
            && (forall i | 0 <= i < |segs| && InFile(segs[i], x) ::
                  segs[i].vaddr <= x && segs[i].offset + (x - segs[i].vaddr) < |image|
                    && data[phys][x % PAGE] == image[segs[i].offset + (x - segs[i].vaddr)])
            && ((forall i | 0 <= i < |segs| :: !InFile(segs[i], x)) ==> data[phys][x % PAGE] == 0)
  {
    hide Accepted, Loaded, FileByte, SegmentOk, NoOverlap, InFile;
    AcceptedSegments(image, entry, segs);
    AcceptedApart(image, entry, segs);
    LoadedByte(image, segs, space, data, x);
    forall i | 0 <= i < |segs| && InFile(segs[i], x)
      ensures segs[i].vaddr <= x && segs[i].offset + (x - segs[i].vaddr) < |image|
              && FileByte(image, segs, x) == image[segs[i].offset + (x - segs[i].vaddr)]
    {
      InFileFrom(segs[i], x);
      FileByteIn(image, segs, i, x);
    }
    if forall i | 0 <= i < |segs| :: !InFile(segs[i], x) {
      FileByteOut(image, segs, x);
    }
  }

  lemma InFileFrom(s: Segment, x: nat)
    requires InFile(s, x)
    ensures s.vaddr <= x
  {
  }

  lemma AcceptedApart(image: seq<Byte>, entry: nat, segs: seq<Segment>)
    requires Accepted(image, entry, segs)
    ensures NoOverlap(segs)
  {
  }

  lemma LoadedByte(image: seq<Byte>, segs: seq<Segment>, space: Pages, data: Frames, x: nat)
    requires Loaded(image, segs, space, data) && x / PAGE in space
    ensures var phys := space[x / PAGE].phys;
            phys in data && |data[phys]| == PAGE
            && data[phys][x % PAGE] == FileByte(image, segs, x)
  {
    hide FileByte, AnyWritable, AnyExecutable, Touched;
    var n := x / PAGE;
    assert PageFilled(image, segs, space[n].phys, n, data);
    assert x == n * PAGE + x % PAGE;
  }
}
