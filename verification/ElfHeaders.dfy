/** Reading the headers of an ELF64 executable (Tool Interface Standard, ELF-64 object file format). */
module ElfHeaders {
  import opened Wrappers
  import opened Bytes

  const PAGE: nat := 0x1000
  const LOAD_MIN: nat := 0x1000
  const LOAD_MAX: nat := 0x4000_0000_0000
  const MAX_SEGMENTS: nat := 16
  const MAX_PHDRS: nat := 64
  const MAX_PAGES: nat := 0x4000
  const EHDR_SIZE: nat := 64
  const PHDR_SIZE: nat := 56
  const ET_EXEC: nat := 2
  const EM_X86_64: nat := 62
  const PT_LOAD: nat := 1
  const PT_INTERP: nat := 3

  datatype ElfError =
    | TooShort | BadMagic | NotElf64Le | NotExecutable | WrongArch | BadHeader | Dynamic | Truncated | BadSegment
    | TooManySegments | Overlap | WritableExecutable | TooLarge | NoLoadable | BadEntry | NoMemory

  datatype Segment = Segment(vaddr: nat, offset: nat, filesz: nat, memsz: nat, writable: bool, executable: bool)

  datatype Phdr = Phdr(kind: nat, flags: nat, offset: nat, vaddr: nat, filesz: nat, memsz: nat)

  function ReadPhdr(image: seq<Byte>, o: nat): Phdr
    requires o + PHDR_SIZE <= |image|
  {
    Phdr(U32(image, o), U32(image, o + 4), U64(image, o + 8), U64(image, o + 16), U64(image, o + 32),
      U64(image, o + 40))
  }

  function SegmentOf(p: Phdr): Segment
  {
    Segment(p.vaddr, p.offset, p.filesz, p.memsz, p.flags / 2 % 2 == 1, p.flags % 2 == 1)
  }

  predicate IsLoad(p: Phdr) { p.kind == PT_LOAD && p.memsz > 0 }

  function FirstPage(s: Segment): nat { s.vaddr / PAGE }

  function EndPage(s: Segment): nat { (s.vaddr + s.memsz + PAGE - 1) / PAGE }

  /** Pages that one segment touches. */
  function PagesOf(s: Segment): (n: nat)
    ensures n == EndPage(s) - FirstPage(s)
  {
    EndPage(s) - FirstPage(s)
  }

  function TotalPages(segs: seq<Segment>): nat
  {
    if segs == [] then 0 else TotalPages(segs[..|segs| - 1]) + PagesOf(segs[|segs| - 1])
  }

  // ------------------------------------------------------- one header entry

  /** A loadable segment that the loader accepts, taken by itself. */
  predicate SegmentOk(len: nat, s: Segment)
  {
    && 0 < s.memsz && s.filesz <= s.memsz
    && LOAD_MIN <= s.vaddr && s.vaddr + s.memsz <= LOAD_MAX
    && s.offset + s.filesz <= len
    && !(s.writable && s.executable)
  }

  predicate HeaderOk(len: nat, p: Phdr) { p.kind != PT_INTERP && (IsLoad(p) ==> SegmentOk(len, SegmentOf(p))) }

  datatype Scan = Scan(segments: seq<Segment>, pages: nat)

  /** One round of the header loop. */
  function Examine(len: nat, p: Phdr, s: Scan): Result<Scan, ElfError>
  {
    if p.kind == PT_INTERP then Err(Dynamic)
    else if p.kind != PT_LOAD || p.memsz == 0 then Ok(s)
    else if p.filesz > p.memsz then Err(BadSegment)
    else if p.vaddr < LOAD_MIN || p.vaddr + p.memsz > LOAD_MAX then Err(BadSegment)
    else if p.offset + p.filesz > len then Err(Truncated)
    else if p.flags / 2 % 2 == 1 && p.flags % 2 == 1 then Err(WritableExecutable)
    else if |s.segments| == MAX_SEGMENTS then Err(TooManySegments)
    else
      var pages := s.pages + PagesOf(SegmentOf(p));
      if pages > MAX_PAGES then Err(TooLarge) else Ok(Scan(s.segments + [SegmentOf(p)], pages))
  }

  // --------------------------------------------------------- all the headers

  function Phdrs(image: seq<Byte>, phoff: nat, n: nat): (ps: seq<Phdr>)
    requires phoff + n * PHDR_SIZE <= |image|
    ensures |ps| == n
  {
    if n == 0 then [] else Phdrs(image, phoff, n - 1) + [ReadPhdr(image, phoff + (n - 1) * PHDR_SIZE)]
  }

  /** The loadable segments among the headers, in order. */
  function Loads(ps: seq<Phdr>): seq<Segment>
  {
    if ps == [] then []
    else
      var p := ps[|ps| - 1];
      Loads(ps[..|ps| - 1]) + (if IsLoad(p) then [SegmentOf(p)] else [])
  }

  function ScanAll(len: nat, ps: seq<Phdr>): Result<Scan, ElfError>
  {
    if ps == [] then Ok(Scan([], 0))
    else
      match ScanAll(len, ps[..|ps| - 1])
      case Err(e) => Err(e)
      case Ok(s) => Examine(len, ps[|ps| - 1], s)
  }

  ghost predicate AllOk(len: nat, ps: seq<Phdr>)
  {
    && (forall i | 0 <= i < |ps| :: HeaderOk(len, ps[i]))
    && |Loads(ps)| <= MAX_SEGMENTS && TotalPages(Loads(ps)) <= MAX_PAGES
  }

  lemma AllOkLess(len: nat, ps: seq<Phdr>)
    requires ps != []
    ensures AllOk(len, ps) <==>
            var n := |ps| - 1; var q := ps[..n]; var p := ps[n];
            AllOk(len, q) && HeaderOk(len, p) &&
            (IsLoad(p) ==> |Loads(q)| < MAX_SEGMENTS && TotalPages(Loads(q)) + PagesOf(SegmentOf(p)) <= MAX_PAGES)
  {
    hide HeaderOk, SegmentOk, PagesOf;
    var n := |ps| - 1;
    var q, p := ps[..n], ps[n];
    assert (forall i | 0 <= i < |ps| :: HeaderOk(len, ps[i])) <==>
           (forall i | 0 <= i < |q| :: HeaderOk(len, q[i])) && HeaderOk(len, p) by {
      assert forall i | 0 <= i < n :: q[i] == ps[i];
    }
    if IsLoad(p) {
      var l := Loads(ps);
      assert l[..|l| - 1] == Loads(q) && l[|l| - 1] == SegmentOf(p);
    } else {
      assert Loads(ps) == Loads(q);
    }
  }

  /** The header loop succeeds exactly when every header is acceptable and the limits hold. */
  lemma {:induction false} ScanExact(len: nat, ps: seq<Phdr>)
    ensures ScanAll(len, ps).Ok? <==> AllOk(len, ps)
    ensures ScanAll(len, ps).Ok? ==> ScanAll(len, ps).value == Scan(Loads(ps), TotalPages(Loads(ps)))
  {
    if ps != [] {
      var n := |ps| - 1;
      var q, p := ps[..n], ps[n];
      ScanExact(len, q);
      AllOkLess(len, ps);
      if AllOk(len, q) {
        ExamineExact(len, p, Scan(Loads(q), TotalPages(Loads(q))));
      }
      hide AllOk, HeaderOk, Examine, PagesOf, SegmentOk;
      if IsLoad(p) {
        var l := Loads(ps);
        assert l[..|l| - 1] == Loads(q) && l[|l| - 1] == SegmentOf(p);
      } else {
        assert Loads(ps) == Loads(q);
      }
    }
  }

  /** Each error of a program header and what it means; of several, the first in this order is reported. */
  lemma ExamineErrors(len: nat, p: Phdr, s: Scan)
    ensures var r := Examine(len, p, s);
            && (r == Err(Dynamic) <==> p.kind == 3)
            && (r == Err(BadSegment) <==>
                  p.kind == 1 && p.memsz > 0
                  && (p.filesz > p.memsz || p.vaddr < 0x1000 || p.vaddr + p.memsz > 0x4000_0000_0000))
            && (r == Err(Truncated) ==> p.filesz <= p.memsz && p.offset + p.filesz > len)
            && (r == Err(WritableExecutable) ==> SegmentOf(p).writable && SegmentOf(p).executable)
            && (r == Err(TooManySegments) ==> |s.segments| == 16)
            && (r == Err(TooLarge) ==> s.pages + PagesOf(SegmentOf(p)) > 0x4000)
            && (r.Err? ==> p.kind == 3 || (p.kind == 1 && p.memsz > 0))
            && (r.Err? ==> r.error in {Dynamic, BadSegment, Truncated, WritableExecutable, TooManySegments, TooLarge})
  {
  }

  lemma ExamineExact(len: nat, p: Phdr, s: Scan)
    requires |s.segments| <= MAX_SEGMENTS
    ensures Examine(len, p, s).Ok? <==>
            HeaderOk(len, p) && (IsLoad(p) ==>
              |s.segments| < MAX_SEGMENTS
              && s.pages + PagesOf(SegmentOf(p)) <= MAX_PAGES)
    ensures Examine(len, p, s).Ok? ==>
            Examine(len, p, s).value == if IsLoad(p) then Scan(s.segments + [SegmentOf(p)],
              s.pages + PagesOf(SegmentOf(p))) else s
  {
  }

  // ------------------------------------------------------------------- parse

  predicate Overlaps(a: Segment, b: Segment) { a.vaddr < b.vaddr + b.memsz && b.vaddr < a.vaddr + a.memsz }

  ghost predicate NoOverlap(segs: seq<Segment>) { forall i, j | 0 <= i < j < |segs| :: !Overlaps(segs[i], segs[j]) }

  /** The entry point lies in an executable segment. */
  ghost predicate EntryOk(entry: nat, segs: seq<Segment>)
  {
    exists i :: 0 <= i < |segs| && segs[i].executable && segs[i].vaddr <= entry < segs[i].vaddr + segs[i].memsz
  }

  /** What the file header must say before the program headers are looked at. */
  function HeaderError(image: seq<Byte>): Option<ElfError>
  {
    if |image| < EHDR_SIZE then Some(TooShort)
    else if image[..4] != [0x7f, 0x45, 0x4c, 0x46] then Some(BadMagic)
    else if image[4] != 2 || image[5] != 1 then Some(NotElf64Le)
    else if U16(image, 16) != ET_EXEC then Some(NotExecutable)
    else if U16(image, 18) != EM_X86_64 then Some(WrongArch)
    else if U16(image, 54) != PHDR_SIZE || U16(image, 56) == 0 || U16(image, 56) > MAX_PHDRS then Some(BadHeader)
    else if U64(image, 32) + U16(image, 56) * PHDR_SIZE > |image| then Some(Truncated)
    else None
  }

  /** Each error of the file header and what it means; of several, the first in this order is reported. */
  lemma HeaderErrors(image: seq<Byte>)
    ensures HeaderError(image) == Some(TooShort) <==> |image| < 64
    ensures HeaderError(image) == Some(BadMagic) <==> |image| >= 64 && image[..4] != [0x7f, 0x45, 0x4c, 0x46]
    ensures HeaderError(image) == Some(NotElf64Le) <==>
            |image| >= 64 && image[..4] == [0x7f, 0x45, 0x4c, 0x46] && !(image[4] == 2 && image[5] == 1)
    ensures HeaderError(image) in {Some(NotExecutable), Some(WrongArch), Some(BadHeader), Some(Truncated), None} <==>
            |image| >= 64 && image[..6] == [0x7f, 0x45, 0x4c, 0x46, 2, 1]
    ensures HeaderError(image) == Some(NotExecutable) ==> U16(image, 16) != 2
    ensures HeaderError(image) == Some(WrongArch) ==> U16(image, 16) == 2 && U16(image, 18) != 62
    ensures HeaderError(image) == Some(BadHeader) ==>
              U16(image, 18) == 62 && !(U16(image, 54) == 56 && 1 <= U16(image, 56) <= 64)
    ensures HeaderError(image) == Some(Truncated) ==>
              U16(image, 54) == 56 && U64(image, 32) + U16(image, 56) * 56 > |image|
  {
    hide U16, U64;
    if |image| >= 64 {
      assert image[..6] == image[..4] + [image[4], image[5]];
    }
  }

  function HeadersOf(image: seq<Byte>): seq<Phdr>
    requires HeaderError(image).None?
  {
    Phdrs(image, U64(image, 32), U16(image, 56))
  }

  /** An image that the loader accepts, with its entry point and segments. */
  ghost predicate Accepted(image: seq<Byte>, entry: nat, segs: seq<Segment>)
  {
    && HeaderError(image).None? && entry == U64(image, 24)
    && AllOk(|image|, HeadersOf(image)) && segs == Loads(HeadersOf(image))
    && segs != [] && NoOverlap(segs) && EntryOk(entry, segs)
  }

  method CheckOverlap(segs: seq<Segment>) returns (found: bool)
    ensures found <==> !NoOverlap(segs)
  {
    for i := 0 to |segs|
      invariant forall a, b | 0 <= a < i && a < b < |segs| :: !Overlaps(segs[a], segs[b])
    {
      for j := i + 1 to |segs|
        invariant forall b | i < b < j :: !Overlaps(segs[i], segs[b])
      {
        if segs[i].vaddr < segs[j].vaddr + segs[j].memsz
          && segs[j].vaddr < segs[i].vaddr + segs[i].memsz { return true; }
      }
    }
    return false;
  }

  method CheckEntry(entry: nat, segs: seq<Segment>) returns (ok: bool)
    ensures ok <==> EntryOk(entry, segs)
  {
    for i := 0 to |segs|
      invariant !exists k :: 0 <= k < i && segs[k].executable && segs[k].vaddr <= entry < segs[k].vaddr + segs[k].memsz
    {
      if segs[i].executable && entry >= segs[i].vaddr && entry < segs[i].vaddr + segs[i].memsz { return true; }
    }
    return false;
  }

  method ScanHeaders(image: seq<Byte>, phoff: nat, phnum: nat) returns (r: Result<Scan, ElfError>)
    requires phoff + phnum * PHDR_SIZE <= |image|
    ensures r == ScanAll(|image|, Phdrs(image, phoff, phnum))
  {
    hide Examine, ReadPhdr;
    var s := Scan([], 0);
    var i := 0;
    ghost var ps := Phdrs(image, phoff, phnum);
    PhdrsPrefix(image, phoff, 0, phnum);
    while i < phnum
      invariant 0 <= i <= phnum && ScanAll(|image|, ps[..i]) == Ok(s)
    {
      PhdrsPrefix(image, phoff, i, phnum);
      PhdrsPrefix(image, phoff, i + 1, phnum);
      assert ps[..i + 1][..i] == ps[..i];
      var p := ReadPhdr(image, phoff + i * PHDR_SIZE);
      assert ps[..i + 1][i] == p;
      var next := Examine(|image|, p, s);
      if next.Err? {
        ScanStops(|image|, ps, i + 1);
        return next;
      }
      s := next.value;
      i := i + 1;
    }
    assert ps[..i] == ps;
    return Ok(s);
  }

  lemma {:induction false} PhdrsPrefix(image: seq<Byte>, phoff: nat, i: nat, n: nat)
    requires i <= n && phoff + n * PHDR_SIZE <= |image|
    ensures Phdrs(image, phoff, n)[..i] == Phdrs(image, phoff, i)
    decreases n
  {
    if i < n {
      PhdrsPrefix(image, phoff, i, n - 1);
      assert Phdrs(image, phoff, n)[..i] == Phdrs(image, phoff, n - 1)[..i];
    }
  }

  /** An error in a header is the result, whatever follows. */
  lemma {:induction false} ScanStops(len: nat, ps: seq<Phdr>, i: nat)
    requires i <= |ps| && ScanAll(len, ps[..i]).Err?
    ensures ScanAll(len, ps) == ScanAll(len, ps[..i])
    decreases |ps|
  {
    if i < |ps| {
      assert ps[..|ps| - 1][..i] == ps[..i];
      ScanStops(len, ps[..|ps| - 1], i);
    } else {
      assert ps[..i] == ps;
    }
  }

  /** Why an image with these program headers is rejected, if it is. */
  ghost function Rejection(len: nat, ps: seq<Phdr>): ElfError
  {
    if ScanAll(len, ps).Err? then ScanAll(len, ps).error
    else if Loads(ps) == [] then NoLoadable
    else if !NoOverlap(Loads(ps)) then ElfError.Overlap
    else BadEntry
  }

  /** Validate the headers and collect the loadable segments: succeeds exactly on accepted images. */
  method Parse(image: seq<Byte>) returns (r: Result<(nat, seq<Segment>), ElfError>)
    ensures r.Ok? ==> Accepted(image, r.value.0, r.value.1)
    ensures r.Err? ==> forall entry, segs :: !Accepted(image, entry, segs)
    ensures HeaderError(image).Some? ==> r == Err(HeaderError(image).value)
    ensures HeaderError(image).None? && r.Err? ==> r.error == Rejection(|image|, HeadersOf(image))
    ensures r != Err(NoMemory)
  {
    hide ScanAll, AllOk, Loads, Phdrs;
    var e := HeaderError(image);
    if e.Some? { return Err(e.value); }
    var entry, phoff, phnum := U64(image, 24), U64(image, 32), U16(image, 56);
    ghost var ps := HeadersOf(image);
    ScanExact(|image|, ps);
    ScanNoMemory(|image|, ps);
    var s := ScanHeaders(image, phoff, phnum);
    if s.Err? { return Err(s.error); }
    var segs := s.value.segments;
    if segs == [] { return Err(NoLoadable); }
    var overlap := CheckOverlap(segs);
    if overlap { return Err(ElfError.Overlap); }
    var ok := CheckEntry(entry, segs);
    if !ok { return Err(BadEntry); }
    return Ok((entry, segs));
  }

  lemma {:induction false} ScanNoMemory(len: nat, ps: seq<Phdr>)
    ensures ScanAll(len, ps) != Err(NoMemory)
  {
    if ps != [] {
      ScanNoMemory(len, ps[..|ps| - 1]);
    }
  }

  /** Every segment of an accepted image is acceptable. */
  lemma {:induction false} LoadsOk(len: nat, ps: seq<Phdr>)
    requires forall i | 0 <= i < |ps| :: HeaderOk(len, ps[i])
    ensures forall i | 0 <= i < |Loads(ps)| :: SegmentOk(len, Loads(ps)[i])
  {
    hide SegmentOk;
    if ps != [] {
      LoadsOk(len, ps[..|ps| - 1]);
      assert HeaderOk(len, ps[|ps| - 1]);
    }
  }

  // ------------------------------------------------------ the format, written

  /** What a program header holds: the fields the loader reads, the physical address and the alignment. */
  datatype Entry = Entry(p: Phdr, paddr: nat, align: nat)

  predicate Fits64(v: nat) { v < 0x1_0000_0000_0000_0000 }

  predicate EntryFits(e: Entry)
  {
    && e.p.kind < 0x1_0000_0000 && e.p.flags < 0x1_0000_0000 && Fits64(e.p.offset) && Fits64(e.p.vaddr)
    && Fits64(e.paddr) && Fits64(e.p.filesz) && Fits64(e.p.memsz) && Fits64(e.align)
  }

  /** The 56 bytes of a program header, field after field. */
  function WritePhdr(e: Entry): (r: seq<Byte>)
    requires EntryFits(e)
    ensures |r| == PHDR_SIZE
  {
    Le32(e.p.kind) + Le32(e.p.flags) + Le64(e.p.offset) + Le64(e.p.vaddr) + Le64(e.paddr) + Le64(e.p.filesz)
    + Le64(e.p.memsz) + Le64(e.align)
  }

  /** The 64 bytes of the header of an x86-64 executable whose program headers follow it. */
  function WriteEhdr(entry: nat, phnum: nat, shoff: nat): (r: seq<Byte>)
    requires Fits64(entry) && phnum < 0x1_0000 && Fits64(shoff)
    ensures |r| == EHDR_SIZE
  {
    [0x7f, 0x45, 0x4c, 0x46, 2, 1, 1] + Zeros(9) + Le16(ET_EXEC) + Le16(EM_X86_64) + Le32(1) + Le64(entry)
    + Le64(EHDR_SIZE) + Le64(shoff) + Le32(0) + Le16(EHDR_SIZE) + Le16(PHDR_SIZE) + Le16(phnum) + Le16(64)
    + Le16(0) + Le16(0)
  }

  function WriteAll(es: seq<Entry>): (r: seq<Byte>)
    requires forall i | 0 <= i < |es| :: EntryFits(es[i])
    ensures |r| == |es| * PHDR_SIZE
  {
    if es == [] then [] else WriteAll(es[..|es| - 1]) + WritePhdr(es[|es| - 1])
  }

  lemma PhdrReads(image: seq<Byte>, o: nat, e: Entry)
    requires EntryFits(e) && o + PHDR_SIZE <= |image| && image[o..o + PHDR_SIZE] == WritePhdr(e)
    ensures ReadPhdr(image, o) == e.p
  {
    hide U32, U64, Le32, Le64;
    var w := WritePhdr(e);
    Read32(image, o, w, 0, e.p.kind);
    Read32(image, o, w, 4, e.p.flags);
    Read64(image, o, w, 8, e.p.offset);
    Read64(image, o, w, 16, e.p.vaddr);
    Read64(image, o, w, 32, e.p.filesz);
    Read64(image, o, w, 40, e.p.memsz);
  }

  lemma SameSlice(image: seq<Byte>, o: nat, w: seq<Byte>, i: nat, n: nat)
    requires o + |w| <= |image| && image[o..o + |w|] == w && i + n <= |w|
    ensures image[o + i..o + i + n] == w[i..i + n]
  {
    var a, b := image[o + i..o + i + n], w[i..i + n];
    forall k | 0 <= k < n ensures a[k] == b[k] {
      assert image[o..o + |w|][i + k] == w[i + k];
    }
  }

  /** A field of a record reads the same inside the image. */
  lemma Read64(image: seq<Byte>, o: nat, w: seq<Byte>, i: nat, v: nat)
    requires o + |w| <= |image| && image[o..o + |w|] == w && i + 8 <= |w| && Fits64(v) && w[i..i + 8] == Le64(v)
    ensures U64(image, o + i) == v
  {
    hide U64, Le64;
    SameSlice(image, o, w, i, 8);
    U64Slice(image, o + i);
  }

  lemma Read32(image: seq<Byte>, o: nat, w: seq<Byte>, i: nat, v: nat)
    requires o + |w| <= |image| && image[o..o + |w|] == w && i + 4 <= |w| && v < 0x1_0000_0000 && w[i..i + 4] == Le32(v)
    ensures U32(image, o + i) == v
  {
    hide U32, Le32;
    SameSlice(image, o, w, i, 4);
    U32Slice(image, o + i);
  }

  lemma Read16(image: seq<Byte>, o: nat, w: seq<Byte>, i: nat, v: nat)
    requires o + |w| <= |image| && image[o..o + |w|] == w && i + 2 <= |w| && v < 0x1_0000 && w[i..i + 2] == Le16(v)
    ensures U16(image, o + i) == v
  {
    hide U16, Le16;
    SameSlice(image, o, w, i, 2);
    U16Slice(image, o + i);
  }

  lemma EhdrParts(entry: nat, phnum: nat, shoff: nat)
    requires Fits64(entry) && phnum < 0x1_0000 && Fits64(shoff)
    ensures var w := WriteEhdr(entry, phnum, shoff);
            && w[16..18] == Le16(ET_EXEC) && w[18..20] == Le16(EM_X86_64) && w[24..32] == Le64(entry)
            && w[32..40] == Le64(EHDR_SIZE) && w[54..56] == Le16(PHDR_SIZE) && w[56..58] == Le16(phnum)
  {
    hide Le16, Le32, Le64;
  }

  lemma EhdrReads(image: seq<Byte>, entry: nat, phnum: nat, shoff: nat)
    requires Fits64(entry) && phnum < 0x1_0000 && Fits64(shoff)
    requires EHDR_SIZE <= |image| && image[..EHDR_SIZE] == WriteEhdr(entry, phnum, shoff)
    ensures image[..4] == [0x7f, 0x45, 0x4c, 0x46] && image[4] == 2 && image[5] == 1
    ensures U16(image, 16) == ET_EXEC && U16(image, 18) == EM_X86_64 && U64(image, 24) == entry
    ensures U64(image, 32) == EHDR_SIZE && U16(image, 54) == PHDR_SIZE && U16(image, 56) == phnum
  {
    hide U16, U64, Le16, Le32, Le64;
    var w := WriteEhdr(entry, phnum, shoff);
    EhdrParts(entry, phnum, shoff);
    assert image[..4] == image[..EHDR_SIZE][..4];
    assert image[4] == w[4] && image[5] == w[5];
    Read16(image, 0, w, 16, ET_EXEC);
    Read16(image, 0, w, 18, EM_X86_64);
    Read64(image, 0, w, 24, entry);
    Read64(image, 0, w, 32, EHDR_SIZE);
    Read16(image, 0, w, 54, PHDR_SIZE);
    Read16(image, 0, w, 56, phnum);
  }

  lemma {:induction false} AllRead(image: seq<Byte>, o: nat, es: seq<Entry>)
    requires forall i | 0 <= i < |es| :: EntryFits(es[i])
    requires o + |es| * PHDR_SIZE <= |image| && image[o..o + |es| * PHDR_SIZE] == WriteAll(es)
    ensures Phdrs(image, o, |es|) == seq(|es|, i requires 0 <= i < |es| => es[i].p)
  {
    hide ReadPhdr, WritePhdr, EntryFits;
    if es != [] {
      var n := |es| - 1;
      var a := WriteAll(es);
      assert image[o..o + n * PHDR_SIZE] == a[..n * PHDR_SIZE] == WriteAll(es[..n]);
      assert image[o + n * PHDR_SIZE..o + n * PHDR_SIZE + PHDR_SIZE] == a[n * PHDR_SIZE..] == WritePhdr(es[n]);
      AllRead(image, o, es[..n]);
      PhdrReads(image, o + n * PHDR_SIZE, es[n]);
    }
  }

  /** An executable written by the format reads back: its entry point and its program headers. */
  lemma HeadersReadBack(image: seq<Byte>, entry: nat, shoff: nat, es: seq<Entry>, rest: seq<Byte>)
    requires Fits64(entry) && Fits64(shoff) && 1 <= |es| <= MAX_PHDRS && forall i | 0 <= i < |es| :: EntryFits(es[i])
    requires image == WriteEhdr(entry, |es|, shoff) + WriteAll(es) + rest
    ensures HeaderError(image).None? && U64(image, 24) == entry
    ensures HeadersOf(image) == seq(|es|, i requires 0 <= i < |es| => es[i].p)
  {
    hide U16, U64, WriteEhdr, WriteAll, Phdrs, EntryFits;
    assert image[..EHDR_SIZE] == WriteEhdr(entry, |es|, shoff);
    EhdrReads(image, entry, |es|, shoff);
    assert image[EHDR_SIZE..EHDR_SIZE + |es| * PHDR_SIZE] == WriteAll(es);
    AllRead(image, EHDR_SIZE, es);
  }

  /** The permission bits of a header: 1 is execute, 2 is write, 4 is read. */
  lemma SegmentBits(p: Phdr, other: nat, read: bool, write: bool, execute: bool)
    requires p.flags == 8 * other + (if read then 4 else 0) + (if write then 2 else 0) + (if execute then 1 else 0)
    ensures SegmentOf(p) == Segment(p.vaddr, p.offset, p.filesz, p.memsz, write, execute)
  {
    var w, x := if write then 1 else 0, if execute then 1 else 0;
    LowBits(p.flags, 2 * other + (if read then 1 else 0), w, x);
  }

  lemma LowBits(n: nat, upper: nat, w: nat, x: nat)
    requires n == 4 * upper + 2 * w + x && w < 2 && x < 2
    ensures n % 2 == x && n / 2 % 2 == w
  {
    assert n == 2 * (2 * upper + w) + x;
    assert n / 2 == 2 * upper + w;
  }
}
