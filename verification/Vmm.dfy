/** The virtual memory manager: the kernel's page tables and those of every process, in one memory. */
module VirtualMemory {
  import opened Wrappers
  import opened PageEntries
  import opened PageTables
  import opened PageOwners
  import opened PageSteps
  import opened PageTeardown
  import opened PageSpaces

  class AddressSpaces {
    const kernel: nat
    var mem: Mem
    var free: set<nat>
    ghost var loc: Places
    ghost var at: Tables
    ghost var leaf: Places
    ghost var held: Held

    /** The kernel's tables as `init` starts them: an empty root. */
    constructor (root: nat, frames: set<nat>)
      requires root !in frames
      ensures Valid() && kernel == root && free == frames && held == map[] && leaf == map[]
      ensures loc == map[root := Place(root, P0)] && at == map[Place(root, P0) := root] && NoGiant(mem, loc)
      ensures forall va | VaOk(va) :: Seen(root, va) == None
    {
      kernel := root;
      mem := map[root := Zeroed()];
      free := frames;
      loc := map[root := Place(root, P0)];
      at := map[Place(root, P0) := root];
      leaf := map[];
      held := map[];
    }

    ghost predicate Valid()
      reads this
    {
      VmOk(mem, loc, at, leaf, held, kernel, free)
    }

    /** The translation of page `va` in space `r`. */
    ghost function Seen(r: nat, va: Va): Option<Mapping>
      reads this
    {
      View(mem, 0, r, va)
    }

    method AllocZeroed() returns (f: nat)
      requires free != {}
      modifies `mem, `free
      ensures f in old(free) && free == old(free) - {f} && mem == old(mem)[f := Zeroed()]
    {
      f :| f in free;
      free := free - {f};
      mem := mem[f := Zeroed()];
    }

    /** A frame for the caller. */
    method AllocFrame() returns (r: Option<nat>)
      requires Valid()
      modifies `free
      ensures Valid()
      ensures r.None? ==> old(free) == {} && free == old(free)
      ensures r.Some? ==> r.value in old(free) && free == old(free) - {r.value} && |free| + 1 == |old(free)|
      ensures r.Some? ==>
                r.value !in loc && r.value !in leaf && r.value in old(Frames())
                && Frames() == old(Frames()) - {r.value}
    {
      hide VmOk, AllFrames;
      if free == {} { return None; }
      var f :| f in free;
      TakeFrame(mem, loc, at, leaf, held, kernel, free, f);
      TakenFrames(free, loc, leaf, f);
      free := free - {f};
      return Some(f);
    }

    /** Hang table `f`, already filled in memory, at entry `i` of `t`. */
    method Link(t: nat, i: nat, f: nat, ghost mem0: Mem, ghost free0: set<nat>)
      requires VmOk(mem0, loc, at, leaf, held, kernel, free0) && t in loc && f in free0 && free == free0 - {f}
      requires i < ENTRIES && Level(loc[t].path) < 3 && f in mem && mem == mem0[f := mem[f]]
      requires Replaces(mem0, Level(loc[t].path), t, i, mem[f])
      requires !IsTable(Level(loc[t].path), Get(mem0, t, i)) && (loc[t].path == P0 ==> !Get(mem0, t, i).present)
      requires loc[t].root == kernel || mem[f] == Zeroed()
      requires loc[t].root == kernel || loc[t].path != P0 || i < KERNEL_START
      modifies `mem, `loc, `at
      ensures Valid() && Grown(mem0, old(loc), free0, mem, loc, free)
      ensures f in loc && loc[f] == Place(old(loc)[t].root, Child(old(loc)[t].path, i))
      ensures Get(mem, t, i) == TableWord(f) && t in loc && loc[t] == old(loc)[t]
      ensures f in mem && mem[f] == old(mem[f]) && |free0| == |free| + 1
      ensures Made(old(at), free0, at, free, {Place(old(loc)[t].root, Child(old(loc)[t].path, i))})
    {
      hide VmOk, Grown, Replaces, IsTable, Made;
      ghost var words := mem[f];
      PlaceIff(mem0, loc, at, leaf, held, kernel, free0, t, i);
      LinkTable(mem0, loc, at, leaf, held, kernel, free0, t, f);
      mem := mem[t := mem[t][i := TableWord(f)]];
      assert Hung(mem0, mem, t, i, f, words);
      HungStep(mem0, mem, loc, at, leaf, held, kernel, free0, t, i, f, words);
      HungGet(mem0, mem, t, i, f, words, t, i);
      ghost var p := Place(loc[t].root, Child(loc[t].path, i));
      loc := loc[f := p];
      MadeOne(at, free0, p, f);
      at := at[p := f];
    }

    /** Descend one level, allocating a zeroed table if the entry is empty. */
    method ChildTable(t: nat, i: nat) returns (c: nat)
      requires Valid() && t in loc && i < ENTRIES && Level(loc[t].path) < 3
      requires free != {} || Get(mem, t, i).present
      requires loc[t].root == kernel || loc[t].path != P0 || i < KERNEL_START
      requires !IsLeaf(Level(loc[t].path), Get(mem, t, i))
      modifies `mem, `free, `loc, `at
      ensures Valid() && Grown(old(mem), old(loc), old(free), mem, loc, free)
      ensures old(Get(mem, t, i).present) ==> free == old(free)
      ensures c in loc && loc[c] == Place(old(loc)[t].root, Child(old(loc)[t].path, i))
      ensures Made(old(at), old(free), at, free, {loc[c]})
    {
      hide Grown, Replaces, Owned, Spare;
      PlaceIff(mem, loc, at, leaf, held, kernel, free, t, i);
      assert TableOk(mem, loc, kernel, t);
      assert EntryOk(mem, loc, kernel, t, i);
      var entry := mem[t][i];
      if entry.present {
        c := entry.addr;
        GrownSelf(mem, loc, free);
        MadeNone(at, free, loc[c]);
      } else {
        hide VmOk;
        c := AllocZeroed();
        EmptyReplaces(old(mem), Level(loc[t].path), t, i);
        Link(t, i, c, old(mem), old(free));
      }
    }

    /** Replace a 2 MiB mapping with an equivalent page table. */
    method SplitHuge(pd: nat, i: nat)
      requires Valid() && pd in loc && i < ENTRIES && loc[pd].path.P2? && loc[pd].root == kernel && free != {}
      requires IsLeaf(2, Get(mem, pd, i))
      modifies `mem, `free, `loc, `at
      ensures Valid() && Grown(old(mem), old(loc), old(free), mem, loc, free)
      ensures IsTable(2, Get(mem, pd, i)) && pd in loc && loc[pd] == old(loc)[pd]
      ensures Made(old(at), old(free), at, free, {Place(old(loc)[pd].root, Child(old(loc)[pd].path, i))})
      ensures |old(free)| == |free| + 1
    {
      hide VmOk, Grown, Replaces;
      LinkTable(mem, loc, at, leaf, held, kernel, free, pd, pd);
      var entry := mem[pd][i];
      var pt := AllocZeroed();
      var j := 0;
      while j < ENTRIES
        modifies `mem
        invariant 0 <= j <= ENTRIES && pt in mem && |mem[pt]| == ENTRIES && mem == old(mem)[pt := mem[pt]]
        invariant forall k | 0 <= k < j :: mem[pt][k] == Split2M(entry, k)
      {
        mem := mem[pt := mem[pt][j := Split2M(entry, j)]];
        j := j + 1;
      }
      Split2MReplaces(old(mem), pd, i, mem[pt]);
      Link(pd, i, pt, old(mem), old(free));
    }

    /** Replace a 1 GiB mapping with 512 equivalent 2 MiB mappings. */
    method Split1GHuge(pdpt: nat, i: nat)
      requires Valid() && pdpt in loc && i < ENTRIES && loc[pdpt].path.P1? && loc[pdpt].root == kernel && free != {}
      requires IsLeaf(1, Get(mem, pdpt, i))
      modifies `mem, `free, `loc, `at
      ensures Valid() && Grown(old(mem), old(loc), old(free), mem, loc, free)
      ensures IsTable(1, Get(mem, pdpt, i)) && pdpt in loc && loc[pdpt] == old(loc)[pdpt]
      ensures Made(old(at), old(free), at, free, {Place(old(loc)[pdpt].root, Child(old(loc)[pdpt].path, i))})
      ensures |old(free)| == |free| + 1
      ensures forall k | 0 <= k < ENTRIES :: IsLeaf(2, Get(mem, Get(mem, pdpt, i).addr, k))
    {
      hide VmOk, Grown, Replaces;
      LinkTable(mem, loc, at, leaf, held, kernel, free, pdpt, pdpt);
      var entry := mem[pdpt][i];
      var pd := AllocZeroed();
      var j := 0;
      while j < ENTRIES
        modifies `mem
        invariant 0 <= j <= ENTRIES && pd in mem && |mem[pd]| == ENTRIES && mem == old(mem)[pd := mem[pd]]
        invariant forall k | 0 <= k < j :: mem[pd][k] == Split1G(entry, k)
      {
        mem := mem[pd := mem[pd][j := Split1G(entry, j)]];
        j := j + 1;
      }
      Split1GReplaces(old(mem), pdpt, i, mem[pd]);
      Link(pdpt, i, pd, old(mem), old(free));
    }

    /** The page directory behind entry `i` of a PDPT. */
    method PdFor(pdpt: nat, i: nat) returns (pd: nat)
      requires Valid() && pdpt in loc && i < ENTRIES && loc[pdpt].path.P1?
      requires Place(loc[pdpt].root, Child(loc[pdpt].path, i)) in at || free != {}
      modifies `mem, `free, `loc, `at
      ensures Valid() && Grown(old(mem), old(loc), old(free), mem, loc, free)
      ensures pd in loc && loc[pd] == Place(old(loc)[pdpt].root, Child(old(loc)[pdpt].path, i))
      ensures Made(old(at), old(free), at, free, {loc[pd]})
    {
      hide VmOk, Grown, Made;
      ghost var p := Place(loc[pdpt].root, Child(loc[pdpt].path, i));
      PlaceIff(mem, loc, at, leaf, held, kernel, free, pdpt, i);
      LinkTable(mem, loc, at, leaf, held, kernel, free, pdpt, pdpt);
      var entry := mem[pdpt][i];
      GrownSelf(mem, loc, free);
      ghost var split := entry.present && entry.bit7;
      if entry.present && entry.bit7 {
        LargeIsKernel(mem, loc, at, leaf, held, kernel, free, pdpt, i);
        Split1GHuge(pdpt, i);
      }
      label L:
      pd := ChildTable(pdpt, i);
      GrownTrans(old(mem), old(loc), old(free), old@L(mem), old@L(loc), old@L(free), mem, loc, free);
      if split {
        MadeTwice(old(at), old(free), old@L(at), old@L(free), at, free, p);
      }
    }

    /** The page table behind entry `i` of a page directory. */
    method PtFor(pd: nat, i: nat) returns (pt: nat)
      requires Valid() && pd in loc && i < ENTRIES && loc[pd].path.P2?
      requires Place(loc[pd].root, Child(loc[pd].path, i)) in at || free != {}
      modifies `mem, `free, `loc, `at
      ensures Valid() && Grown(old(mem), old(loc), old(free), mem, loc, free)
      ensures pt in loc && loc[pt] == Place(old(loc)[pd].root, Child(old(loc)[pd].path, i))
      ensures Made(old(at), old(free), at, free, {loc[pt]})
    {
      hide VmOk, Grown, Made;
      ghost var p := Place(loc[pd].root, Child(loc[pd].path, i));
      PlaceIff(mem, loc, at, leaf, held, kernel, free, pd, i);
      LinkTable(mem, loc, at, leaf, held, kernel, free, pd, pd);
      var entry := mem[pd][i];
      GrownSelf(mem, loc, free);
      ghost var split := entry.present && entry.bit7;
      if entry.present && entry.bit7 {
        LargeIsKernel(mem, loc, at, leaf, held, kernel, free, pd, i);
        SplitHuge(pd, i);
      }
      label L:
      pt := ChildTable(pd, i);
      GrownTrans(old(mem), old(loc), old(free), old@L(mem), old@L(loc), old@L(free), mem, loc, free);
      if split {
        MadeTwice(old(at), old(free), old@L(at), old@L(free), at, free, p);
      }
    }

    /** Come to the page directory of page `va`, making the tables on the way. */
    method DirFor(root: nat, va: Va) returns (pd: nat)
      requires Valid() && IsRoot(loc, root) && VaOk(va) && (root == kernel || va.i0 < KERNEL_START)
      requires Enough(DirPlaces(root, va), at, free)
      modifies `mem, `free, `loc, `at
      ensures Valid() && Grown(old(mem), old(loc), old(free), mem, loc, free)
      ensures pd in loc && loc[pd] == Place(root, PathTo(va, 2))
              && Made(old(at), old(free), at, free, DirPlaces(root, va))
    {
      hide VmOk, Grown, Made, Enough, DirPlaces;
      NotLarge(mem, loc, at, leaf, held, kernel, free, root, va.i0);
      PlaceIff(mem, loc, at, leaf, held, kernel, free, root, va.i0);
      DirFirst(root, va, at, free);
      var pdpt := ChildTable(root, va.i0);
      label L:
      DirSecond(root, va, old(at), old(free), at, free);
      pd := PdFor(pdpt, va.i1);
      GrownTrans(old(mem), old(loc), old(free), old@L(mem), old@L(loc), old@L(free), mem, loc, free);
      DirDone(root, va, old(at), old(free), old@L(at), old@L(free), at, free);
    }

    /** Come to the last-level table of page `va`, making the tables on the way. */
    method TablesFor(root: nat, va: Va) returns (pt: nat)
      requires Valid() && IsRoot(loc, root) && VaOk(va) && (root == kernel || va.i0 < KERNEL_START)
      requires Enough(TablePlaces(root, va), at, free)
      modifies `mem, `free, `loc, `at
      ensures Valid() && Grown(old(mem), old(loc), old(free), mem, loc, free)
      ensures pt in loc && loc[pt] == Place(root, PathTo(va, 3))
              && Made(old(at), old(free), at, free, TablePlaces(root, va))
    {
      hide VmOk, Grown, Made, Enough, TablePlaces, DirPlaces;
      TablesFirst(root, va, at, free);
      var pd := DirFor(root, va);
      label L:
      TablesThird(root, va, old(at), old(free), at, free);
      pt := PtFor(pd, va.i2);
      GrownTrans(old(mem), old(loc), old(free), old@L(mem), old@L(loc), old@L(free), mem, loc, free);
      TablesDone(root, va, old(at), old(free), old@L(at), old@L(free), at, free);
    }

    /** Whether entry `i3` of the page table behind the page directory `pd` maps `va`; a 2 MiB page is split. */
    method LeafInPd(pd: nat, va: Va) returns (r: Option<nat>)
      requires Valid() && pd in loc && VaOk(va) && loc[pd].path == PathTo(va, 2)
      requires (loc[pd].root == kernel || va.i0 < KERNEL_START) && (IsLeaf(2, Get(mem, pd, va.i2)) ==> free != {})
      modifies `mem, `free, `loc, `at
      ensures Valid() && Grown(old(mem), old(loc), old(free), mem, loc, free)
      ensures |old(free)| == |free| + if IsLeaf(2, old(Get(mem, pd, va.i2))) then 1 else 0
      ensures r.Some? <==> old(View(mem, 2, pd, va)).Some?
      ensures r.Some? ==> var pt := r.value;
                          && pt in loc && loc[pt] == Place(old(loc)[pd].root, PathTo(va, 3))
                             && Get(mem, pt, va.i3).present
                          && old(View(mem, 2, pd, va)) == Some(LeafMapping(3, Get(mem, pt, va.i3), va))
    {
      hide VmOk, Grown, LeafMapping;
      GrownSelf(mem, loc, free);
      LinkTable(mem, loc, at, leaf, held, kernel, free, pd, pd);
      var e2 := mem[pd][va.i2];
      if !e2.present { return None; }
      if e2.bit7 {
        LargeIsKernel(mem, loc, at, leaf, held, kernel, free, pd, va.i2);
        SplitHuge(pd, va.i2);
      }
      GrownViews(old(mem), old(loc), old(free), mem, loc, free, at, kernel, pd, va);
      WalkDown(mem, loc, at, leaf, held, kernel, free, pd, 2, va);
      LinkTable(mem, loc, at, leaf, held, kernel, free, pd, pd);
      e2 := mem[pd][va.i2];
      var pt := e2.addr;
      LinkTable(mem, loc, at, leaf, held, kernel, free, pt, pt);
      if !mem[pt][va.i3].present { return None; }
      return Some(pt);
    }

    /** The last-level table that maps `va`, splitting large pages on the way but making no table for an
        absent page. */
    method LeafFor(root: nat, va: Va) returns (r: Option<nat>)
      requires Valid() && IsRoot(loc, root) && VaOk(va) && (root == kernel || va.i0 < KERNEL_START)
      requires Splits(mem, root, va) <= |free|
      modifies `mem, `free, `loc, `at
      ensures Valid() && Grown(old(mem), old(loc), old(free), mem, loc, free)
      ensures |old(free)| == |free| + old(Splits(mem, root, va))
      ensures r.Some? <==> old(Seen(root, va)).Some?
      ensures r.Some? ==> var pt := r.value;
                          && pt in loc && loc[pt] == Place(root, PathTo(va, 3)) && Get(mem, pt, va.i3).present
                          && old(Seen(root, va)) == Some(LeafMapping(3, Get(mem, pt, va.i3), va))
    {
      hide VmOk, Grown, LeafMapping;
      GrownSelf(mem, loc, free);
      NotLarge(mem, loc, at, leaf, held, kernel, free, root, va.i0);
      LinkTable(mem, loc, at, leaf, held, kernel, free, root, root);
      var e0 := mem[root][va.i0];
      if !e0.present || e0.bit7 { return None; }
      var pdpt := e0.addr;
      WalkDown(mem, loc, at, leaf, held, kernel, free, root, 0, va);
      LinkTable(mem, loc, at, leaf, held, kernel, free, pdpt, pdpt);
      var e1 := mem[pdpt][va.i1];
      if !e1.present { return None; }
      if e1.bit7 {
        LargeIsKernel(mem, loc, at, leaf, held, kernel, free, pdpt, va.i1);
        Split1GHuge(pdpt, va.i1);
      }
      label L:
      GrownViews(old(mem), old(loc), old(free), mem, loc, free, at, kernel, pdpt, va);
      WalkDown(mem, loc, at, leaf, held, kernel, free, pdpt, 1, va);
      LinkTable(mem, loc, at, leaf, held, kernel, free, pdpt, pdpt);
      e1 := mem[pdpt][va.i1];
      r := LeafInPd(e1.addr, va);
      GrownTrans(old(mem), old(loc), old(free), old@L(mem), old@L(loc), old@L(free), mem, loc, free);
    }

    /** Map page `va` to a 4 KiB frame. In the kernel's tables this overwrites whatever was there; a process
        maps only frames it owns, at pages that are not mapped. */
    method Map4K(root: nat, va: Va, m: Mapping)
      requires Valid() && IsRoot(loc, root) && VaOk(va) && Enough(TablePlaces(root, va), at, free)
      requires root == kernel || (va.i0 < KERNEL_START && Seen(root, va).None? && m.frame !in free && m.frame !in loc
               && m.frame !in leaf)
      modifies this
      ensures Valid() && Kept(old(loc), old(free), loc, free) && held == old(held)
      ensures OnePage(kernel, old(loc), held, old(mem), mem, root, va, Some(m))
      ensures Made(old(at), old(free), at, free, TablePlaces(root, va))
      ensures old(NoGiant(mem, loc)) ==> NoGiant(mem, loc)
      ensures leaf == if root == kernel then old(leaf) else old(leaf)[m.frame := Place(root, PathTo(va, 4))]
    {
      hide VmOk, Grown, OnePage, View, NoGiant, Made, Enough, TablePlaces;
      var pt := TablesFor(root, va);
      label L:
      GrownRoots(old(mem), old(loc), old(free), mem, loc, free);
      GrownFrames(old(mem), old(loc), old(free), mem, loc, free);
      LinkTable(mem, loc, at, leaf, held, kernel, free, pt, pt);
      LeafWordMeans(m, va);
      EntryOfPage(mem, loc, at, leaf, held, kernel, free, pt, va);
      WritePage(mem, loc, at, leaf, held, kernel, free, pt, LeafWord(m), va);
      PutGiant(mem, loc, pt, va.i3, LeafWord(m));
      leaf := LeafAfter(mem, loc, leaf, kernel, pt, va.i3, LeafWord(m));
      mem := mem[pt := mem[pt][va.i3 := LeafWord(m)]];
      OnePageAfter(kernel, old(loc), old(free), loc, free, held, old(mem), old@L(mem), mem, root, va, Some(m));
    }

    /** The page directory of a block of the kernel, where no 1 GiB page is mapped. */
    method BlockDir(va: Va) returns (pd: nat)
      requires Valid() && VaOk(va) && NoGiant(mem, loc) && Enough(DirPlaces(kernel, va), at, free)
      modifies `mem, `free, `loc, `at
      ensures Valid() && Grown(old(mem), old(loc), old(free), mem, loc, free)
      ensures pd in loc && loc[pd] == Place(kernel, PathTo(va, 2))
              && Made(old(at), old(free), at, free, DirPlaces(kernel, va))
    {
      hide VmOk, Grown, NoGiant, Made, Enough, DirPlaces;
      RootIsRoot(mem, loc, at, leaf, held, kernel, free);
      NotLarge(mem, loc, at, leaf, held, kernel, free, kernel, va.i0);
      PlaceIff(mem, loc, at, leaf, held, kernel, free, kernel, va.i0);
      DirFirst(kernel, va, at, free);
      var pdpt := ChildTable(kernel, va.i0);
      label L:
      GrownFrames(old(mem), old(loc), old(free), mem, loc, free);
      NotGiant(mem, loc, pdpt, va.i1);
      DirSecond(kernel, va, old(at), old(free), at, free);
      PlaceIff(mem, loc, at, leaf, held, kernel, free, pdpt, va.i1);
      pd := ChildTable(pdpt, va.i1);
      GrownTrans(old(mem), old(loc), old(free), old@L(mem), old@L(loc), old@L(free), mem, loc, free);
      DirDone(kernel, va, old(at), old(free), old@L(at), old@L(free), at, free);
    }

    /** Map the 2 MiB of `va`'s page directory entry as one large page of the kernel. The entry must not
        point to a page table. */
    method Map2M(va: Va, base: nat, flags: Attrs)
      requires Valid() && VaOk(va) && !flags.pat && base % 0x200 == 0
      requires Enough(DirPlaces(kernel, va), at, free)
      requires NoGiant(mem, loc) && Place(kernel, PathTo(va, 3)) !in at
      modifies this
      ensures Valid() && Kept(old(loc), old(free), loc, free) && held == old(held) && leaf == old(leaf)
      ensures Made(old(at), old(free), at, free, DirPlaces(kernel, va)) && NoGiant(mem, loc)
      ensures OneBlock(kernel, old(loc), held, old(mem), mem, va, base, flags)
    {
      hide VmOk, Grown, NoGiant, OneBlock, Made, Enough, TablePlaces, DirPlaces;
      var pd := BlockDir(va);
      label L:
      GrownFrames(old(mem), old(loc), old(free), mem, loc, free);
      MadeThere(old(at), old(free), at, free, DirPlaces(kernel, va), Place(kernel, PathTo(va, 3)));
      NotThere(kernel, va);
      LinkTable(mem, loc, at, leaf, held, kernel, free, pd, pd);
      NoPageTable(mem, loc, at, leaf, held, kernel, free, pd, va);
      var existing := mem[pd][va.i2];
      assert !existing.present || existing.bit7;
      WriteBlock(mem, loc, at, leaf, held, kernel, free, pd, va, base, flags);
      PutGiant(mem, loc, pd, va.i2, LargeWord(base, flags));
      mem := mem[pd := mem[pd][va.i2 := LargeWord(base, flags)]];
      OneBlockAfter(kernel, old(loc), old(free), loc, free, held, old(mem), old@L(mem), mem, va, base, flags);
    }

    /** Remove the mapping of page `va` and return its frame, if it was mapped. The frame goes to the caller. */
    method Unmap4K(root: nat, va: Va) returns (r: Option<nat>)
      requires Valid() && IsRoot(loc, root) && VaOk(va) && (root == kernel || va.i0 < KERNEL_START)
      requires Splits(mem, root, va) <= |free|
      modifies this
      ensures Valid() && Kept(old(loc), old(free), loc, free) && held == old(held)
      ensures OnePage(kernel, old(loc), held, old(mem), mem, root, va, None)
      ensures |old(free)| == |free| + old(Splits(mem, root, va))
      ensures r == match old(Seen(root, va)) case None => None case Some(m) => Some(m.frame)
      ensures leaf == if root == kernel || r.None? then old(leaf) else old(leaf) - {r.value}
      ensures root != kernel && r.Some? ==> r.value in old(leaf) && old(leaf)[r.value] == Place(root, PathTo(va, 4))
    {
      hide VmOk, Grown, OnePage, View;
      var p := LeafFor(root, va);
      label L:
      GrownFrames(old(mem), old(loc), old(free), mem, loc, free);
      if p.None? {
        SamePage(kernel, old(loc), old(at), old(leaf), held, old(free), old(mem), mem, loc, free, root, va);
        return None;
      }
      var pt := p.value;
      LinkTable(mem, loc, at, leaf, held, kernel, free, pt, pt);
      UserLeaf(mem, loc, at, leaf, held, kernel, free, pt, va);
      WritePage(mem, loc, at, leaf, held, kernel, free, pt, ZERO, va);
      r := Some(mem[pt][va.i3].addr);
      leaf := LeafAfter(mem, loc, leaf, kernel, pt, va.i3, ZERO);
      mem := mem[pt := mem[pt][va.i3 := ZERO]];
      OnePageAfter(kernel, old(loc), old(free), loc, free, held, old(mem), old@L(mem), mem, root, va, None);
    }

    /** Change the permissions and memory type of one mapped page. */
    method Protect4K(root: nat, va: Va, flags: Attrs) returns (ok: bool)
      requires Valid() && IsRoot(loc, root) && VaOk(va) && (root == kernel || va.i0 < KERNEL_START)
      requires Splits(mem, root, va) <= |free|
      modifies this
      ensures Valid() && Kept(old(loc), old(free), loc, free) && held == old(held) && leaf == old(leaf)
      ensures |old(free)| == |free| + old(Splits(mem, root, va))
      ensures ok <==> old(Seen(root, va)).Some?
      ensures OnePage(kernel, old(loc), held, old(mem), mem, root, va,
                      if ok then Some(Mapping(old(Seen(root, va)).value.frame, flags)) else old(Seen(root, va)))
    {
      hide VmOk, Grown, OnePage, View;
      var p := LeafFor(root, va);
      label L:
      GrownFrames(old(mem), old(loc), old(free), mem, loc, free);
      if p.None? {
        SamePage(kernel, old(loc), old(at), old(leaf), held, old(free), old(mem), mem, loc, free, root, va);
        return false;
      }
      var pt := p.value;
      LinkTable(mem, loc, at, leaf, held, kernel, free, pt, pt);
      var m := Mapping(mem[pt][va.i3].addr, flags);
      LeafWordMeans(m, va);
      UserLeaf(mem, loc, at, leaf, held, kernel, free, pt, va);
      WritePage(mem, loc, at, leaf, held, kernel, free, pt, LeafWord(m), va);
      SameRecord(mem, loc, at, leaf, held, kernel, free, pt, va, LeafWord(m));
      mem := mem[pt := mem[pt][va.i3 := LeafWord(m)]];
      OnePageAfter(kernel, old(loc), old(free), loc, free, held, old(mem), old@L(mem), mem, root, va, Some(m));
      ok := true;
    }

    // ------------------------------------------------------- kernel mappings

    method MapPage(virt: nat, frame: nat, flags: Attrs)
      requires Valid() && Enough(TablePlaces(kernel, PageOf(virt)), at, free)
      modifies this
      ensures Valid() && Kept(old(loc), old(free), loc, free) && held == old(held) && leaf == old(leaf)
      ensures OnePage(kernel, old(loc), held, old(mem), mem, kernel, PageOf(virt), Some(Mapping(frame, flags)))
      ensures Made(old(at), old(free), at, free, TablePlaces(kernel, PageOf(virt)))
    {
      hide VmOk, OnePage;
      RootIsRoot(mem, loc, at, leaf, held, kernel, free);
      Map4K(kernel, PageOf(virt), Mapping(frame, flags));
    }

    method UnmapPage(virt: nat) returns (r: Option<nat>)
      requires Valid() && Splits(mem, kernel, PageOf(virt)) <= |free|
      modifies this
      ensures Valid() && Kept(old(loc), old(free), loc, free) && held == old(held) && leaf == old(leaf)
      ensures OnePage(kernel, old(loc), held, old(mem), mem, kernel, PageOf(virt), None)
      ensures |old(free)| == |free| + old(Splits(mem, kernel, PageOf(virt)))
      ensures r == match old(Seen(kernel, PageOf(virt))) case None => None case Some(m) => Some(m.frame)
    {
      hide VmOk, OnePage;
      RootIsRoot(mem, loc, at, leaf, held, kernel, free);
      r := Unmap4K(kernel, PageOf(virt));
    }

    method ProtectPage(virt: nat, flags: Attrs) returns (ok: bool)
      requires Valid() && (KernelFlags(flags) ==> Splits(mem, kernel, PageOf(virt)) <= |free|)
      modifies this
      ensures Valid() && Kept(old(loc), old(free), loc, free) && held == old(held) && leaf == old(leaf)
      ensures ok <==> flags in {RX, RO, RW, WC, UC} && old(Seen(kernel, PageOf(virt))).Some?
      ensures |old(free)| == |free| + if KernelFlags(flags) then old(Splits(mem, kernel, PageOf(virt))) else 0
      ensures OnePage(kernel, old(loc), held, old(mem), mem, kernel, PageOf(virt),
                      if ok then Some(Mapping(old(Seen(kernel, PageOf(virt))).value.frame, flags))
                        else old(Seen(kernel, PageOf(virt))))
    {
      hide VmOk, OnePage;
      RootIsRoot(mem, loc, at, leaf, held, kernel, free);
      if !KernelFlags(flags) {
        GrownSelf(mem, loc, free);
        SamePage(kernel, loc, at, leaf, held, free, mem, mem, loc, free, kernel, PageOf(virt));
        return false;
      }
      ok := Protect4K(kernel, PageOf(virt), flags);
    }

    /** The software walk in one address space. */
    method Translate(root: nat, virt: nat) returns (phys: Option<nat>)
      requires Valid() && IsRoot(loc, root)
      ensures phys == AsByte(Seen(root, PageOf(virt)), virt)
    {
      NotLarge(mem, loc, at, leaf, held, kernel, free, root, PageOf(virt).i0);
      RootZero(mem, loc, at, leaf, held, kernel, free, root, virt);
      phys := Walk(mem, root, virt);
    }

    // -------------------------------------------------------- address spaces

    /** Fill a zeroed root with the kernel's upper half. */
    method ShareKernelHalf(f: nat, ghost mem0: Mem)
      requires f != kernel && kernel in mem && |mem[kernel]| == ENTRIES && mem == mem0[f := Zeroed()]
      modifies `mem
      ensures RootAdded(mem0, mem, kernel, f)
    {
      var i := KERNEL_START;
      while i < ENTRIES
        invariant KERNEL_START <= i <= ENTRIES && f in mem && |mem[f]| == ENTRIES && mem == mem0[f := mem[f]]
        invariant forall j | 0 <= j < KERNEL_START || i <= j < ENTRIES :: mem[f][j] == ZERO
        invariant forall j | KERNEL_START <= j < i :: mem[f][j] == mem[kernel][j]
      {
        mem := mem[f := mem[f][i := mem[kernel][i]]];
        i := i + 1;
      }
    }

    /** A private, empty lower half plus the kernel's upper half as it is now. */
    method Create() returns (r: Option<nat>)
      requires Valid()
      modifies this
      ensures Valid()
      ensures r.None? <==> old(free) == {}
      ensures r.None? ==>
                mem == old(mem) && loc == old(loc) && free == old(free) && leaf == old(leaf)
                && held == old(held)
      ensures r.Some? ==> && r.value in old(free) && free == old(free) - {r.value} && leaf == old(leaf)
                          && loc == old(loc)[r.value := Place(r.value, P0)]
                          && held == old(held)[r.value := Slots(old(mem), kernel)]
                          && SameViews(old(mem), old(loc), mem, loc)
                          && NewViews(mem, kernel, r.value, Slots(old(mem), kernel))
    {
      hide VmOk, SameViews, NewViews, Slots, RootAdded;
      if free == {} { return None; }
      RootIsRoot(mem, loc, at, leaf, held, kernel, free);
      LinkTable(mem, loc, at, leaf, held, kernel, free, kernel, kernel);
      var f := AllocZeroed();
      FreeIsNot(old(mem), loc, at, leaf, held, kernel, old(free), kernel, f);
      ShareKernelHalf(f, old(mem));
      NewRoot(old(mem), mem, loc, at, leaf, held, kernel, old(free), f);
      loc := loc[f := Place(f, P0)];
      at := at[Place(f, P0) := f];
      held := held[f := Slots(old(mem), kernel)];
      return Some(f);
    }

    /** Map one owned frame into the private half of `s`. */
    method Map(s: nat, virt: nat, frame: nat, flags: Attrs)
      requires Valid() && s in held && Enough(TablePlaces(s, PageOf(virt)), at, free)
      requires virt < USER_SPACE_END && virt % 0x1000 == 0 && UserFlags(flags) && Seen(s, PageOf(virt)).None?
      requires frame !in free && frame !in loc && frame !in leaf
      modifies this
      ensures Valid() && Kept(old(loc), old(free), loc, free) && held == old(held)
      ensures leaf == old(leaf)[frame := Place(s, PathTo(PageOf(virt), 4))] && Frames() == old(Frames()) + {frame}
      ensures Made(old(at), old(free), at, free, TablePlaces(s, PageOf(virt)))
      ensures OnePage(kernel, old(loc), held, old(mem), mem, s, PageOf(virt), Some(Mapping(frame, flags)))
    {
      UserPage(virt);
      hide OnePage, Made, Enough, TablePlaces, Kept, AllFrames;
      assert IsRoot(loc, s);
      hide VmOk;
      Map4K(s, PageOf(virt), Mapping(frame, flags));
      OwnedFrames(old(free), old(loc), old(leaf), free, loc, frame, Place(s, PathTo(PageOf(virt), 4)));
    }

    method Unmap(s: nat, virt: nat) returns (r: Option<nat>)
      requires Valid() && s in held && virt < USER_SPACE_END
      modifies this
      ensures Valid() && Kept(old(loc), old(free), loc, free) && held == old(held)
      ensures OnePage(kernel, old(loc), held, old(mem), mem, s, PageOf(virt), None)
      ensures r == match old(Seen(s, PageOf(virt))) case None => None case Some(m) => Some(m.frame)
      ensures leaf == (if r.None? then old(leaf) else old(leaf) - {r.value}) && |free| == |old(free)|
      ensures r.Some? ==> r.value in old(leaf) && old(leaf)[r.value] == Place(s, PathTo(PageOf(virt), 4))
    {
      UserPage(virt);
      hide OnePage;
      assert IsRoot(loc, s) && s != kernel;
      hide VmOk;
      NoSplits(mem, loc, at, leaf, held, kernel, free, s, PageOf(virt));
      r := Unmap4K(s, PageOf(virt));
    }

    method Protect(s: nat, virt: nat, flags: Attrs) returns (ok: bool)
      requires Valid() && s in held
      modifies this
      ensures Valid() && Kept(old(loc), old(free), loc, free) && held == old(held) && leaf == old(leaf)
      ensures ok <==>
                && virt < USER_SPACE_END && old(Seen(s, PageOf(virt))).Some?
                && flags in {RX.(user := true), RO.(user := true), RW.(user := true)}
      ensures |free| == |old(free)|
      ensures OnePage(kernel, old(loc), held, old(mem), mem, s, PageOf(virt),
                      if ok then Some(Mapping(old(Seen(s, PageOf(virt))).value.frame, flags))
                        else old(Seen(s, PageOf(virt))))
      ensures virt >= USER_SPACE_END || !UserFlags(flags) ==>
                mem == old(mem) && loc == old(loc) && at == old(at)
                && free == old(free)
    {
      hide OnePage;
      assert IsRoot(loc, s);
      hide VmOk;
      if virt >= USER_SPACE_END || !UserFlags(flags) {
        GrownSelf(mem, loc, free);
        SamePage(kernel, loc, at, leaf, held, free, mem, mem, loc, free, s, PageOf(virt));
        return false;
      }
      UserPage(virt);
      NoSplits(mem, loc, at, leaf, held, kernel, free, s, PageOf(virt));
      ok := Protect4K(s, PageOf(virt), flags);
    }

    // -------------------------------------------------------------- teardown

    /** Give a frame back. A frame that is free already is never given back. */
    method FreeFrame(f: nat)
      requires f !in free
      modifies `free
      ensures free == old(free) + {f}
    {
      free := free + {f};
    }

    ghost predicate Tearing(t: nat, level: nat)
      reads this
    {
      && TablesOk(mem, loc, kernel) && Owned(mem, loc, at, leaf, held, kernel)
      && t in loc && Level(loc[t].path) == level && loc[t].root != kernel && Under(loc, leaf, loc[t]) !! free
    }

    method FreePt(t: nat)
      requires Tearing(t, 3)
      modifies `free
      ensures free == old(free) + Under(loc, leaf, loc[t])
    {
      hide Under, UnderBefore, Owned;
      assert TableOk(mem, loc, kernel, t);
      hide TablesOk;
      UnderNone(loc, leaf, loc[t]);
      UnderAll(mem, loc, at, leaf, held, kernel, t);
      for i := 0 to ENTRIES
        invariant free == old(free) + UnderBefore(loc, leaf, loc[t], i)
      {
        var e := mem[t][i];
        UnderNext(loc, leaf, loc[t], i);
        if e.present {
          PageEntry(mem, loc, at, leaf, held, kernel, t, i);
          FreeFrame(e.addr);
        } else {
          AbsentEntry(mem, loc, at, leaf, held, kernel, t, i);
        }
      }
      FreeFrame(t);
    }

    method FreePd(t: nat)
      requires Tearing(t, 2)
      modifies `free
      ensures free == old(free) + Under(loc, leaf, loc[t])
    {
      hide Under, UnderBefore, Owned;
      assert TableOk(mem, loc, kernel, t);
      hide TablesOk;
      UnderNone(loc, leaf, loc[t]);
      UnderAll(mem, loc, at, leaf, held, kernel, t);
      for i := 0 to ENTRIES
        invariant free == old(free) + UnderBefore(loc, leaf, loc[t], i)
      {
        var e := mem[t][i];
        UnderNext(loc, leaf, loc[t], i);
        if e.present {
          TableEntry(mem, loc, at, leaf, held, kernel, t, i);
          FreePt(e.addr);
        } else {
          AbsentEntry(mem, loc, at, leaf, held, kernel, t, i);
        }
      }
      FreeFrame(t);
    }

    method FreePdpt(t: nat)
      requires Tearing(t, 1)
      modifies `free
      ensures free == old(free) + Under(loc, leaf, loc[t])
    {
      hide Under, UnderBefore, Owned;
      assert TableOk(mem, loc, kernel, t);
      hide TablesOk;
      UnderNone(loc, leaf, loc[t]);
      UnderAll(mem, loc, at, leaf, held, kernel, t);
      for i := 0 to ENTRIES
        invariant free == old(free) + UnderBefore(loc, leaf, loc[t], i)
      {
        var e := mem[t][i];
        UnderNext(loc, leaf, loc[t], i);
        if e.present {
          TableEntry(mem, loc, at, leaf, held, kernel, t, i);
          FreePd(e.addr);
        } else {
          AbsentEntry(mem, loc, at, leaf, held, kernel, t, i);
        }
      }
      FreeFrame(t);
    }

    method FreeUserHalf(t: nat)
      requires Tearing(t, 0) && t in held && loc[t] == Place(t, P0)
      modifies `free
      ensures free == old(free) + Under(loc, leaf, loc[t])
    {
      hide Under, UnderBefore, Owned;
      assert TableOk(mem, loc, kernel, t);
      hide TablesOk;
      UnderNone(loc, leaf, loc[t]);
      UnderAll(mem, loc, at, leaf, held, kernel, t);
      KernelHalfEmpty(mem, loc, at, leaf, held, kernel, t);
      for i := 0 to KERNEL_START
        invariant free == old(free) + UnderBefore(loc, leaf, loc[t], i)
      {
        var e := mem[t][i];
        UnderNext(loc, leaf, loc[t], i);
        if e.present {
          TableEntry(mem, loc, at, leaf, held, kernel, t, i);
          FreePdpt(e.addr);
        } else {
          AbsentEntry(mem, loc, at, leaf, held, kernel, t, i);
        }
      }
      FreeFrame(t);
    }

    /** Drop an address space: exactly its tables and its mapped pages become free, each given back once. */
    method Drop(s: nat)
      requires Valid() && s in held
      modifies this
      ensures Valid() && mem == old(mem)
      ensures free == old(free) + FramesOf(old(loc), old(leaf), s) && old(free) !! FramesOf(old(loc), old(leaf), s)
      ensures loc == Others(old(loc), s) && leaf == Others(old(leaf), s) && held == old(held) - {s}
    {
      hide TablesOk, Forest, UserTables, UserPages, Under;
      assert IsRoot(loc, s) && s != kernel;
      hide HeldOk;
      UnderRoot(mem, loc, at, leaf, held, kernel, s);
      OthersVm(mem, loc, at, leaf, held, kernel, free, s);
      FreeUserHalf(s);
      loc, at, leaf, held := Others(loc, s), OtherTables(at, s), Others(leaf, s), held - {s};
    }

    /** All frames in use or free. */
    ghost function Frames(): set<nat>
      reads this
    {
      AllFrames(free, loc, leaf)
    }
  }
}
