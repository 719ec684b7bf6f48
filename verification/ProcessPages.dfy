/** Mapping a set of pages into one process, one after the other, until all are mapped or the frames for
    tables run out. */
module ProcessPages {
  import opened Wrappers
  import opened PageEntries
  import opened PageTables
  import opened PageOwners
  import opened PageSteps
  import opened PageSpaces
  import opened PageNumbers
  import opened VirtualMemory

  /** Pages of the lower half, by number. */
  const USER_PAGES: nat := 0x8_0000_0000

  /** What to map where. */
  type Layout = map<nat, Mapping>

  function UserVa(n: nat): (va: Va)
    ensures VaOk(va)
  {
    PageOf(n * 0x1000)
  }

  ghost function Part(pages: Layout, keys: set<nat>): Layout { map n | n in keys && n in pages :: pages[n] }

  ghost function FramesIn(pages: Layout): set<nat> { set n | n in pages :: pages[n].frame }

  /** The tables for the pages of `keys` in space `s`. */
  ghost function TablesOf(s: nat, keys: set<nat>): set<Place>
  {
    set n, p | n in keys && p in TablePlaces(s, UserVa(n)) :: p
  }

  ghost predicate Space(kernel: nat, held: Held, r: nat) { r == kernel || r in held }

  /** `pages` are mapped in `s`, and every other page of every space is as before. */
  ghost predicate MapsAll(kernel: nat, held: Held, mem: Mem, mem': Mem, s: nat, pages: Layout)
  {
    forall r, v | Space(kernel, held, r) && VaOk(v) ::
      View(mem', 0, r, v) == if r == s && Num(v) in pages then Some(pages[Num(v)]) else View(mem, 0, r, v)
  }

  /** Pages of the lower half that `s` does not map, and frames that are nowhere in use, one for each page. */
  ghost predicate CanMap(mem: Mem, loc: Places, leaf: Places, free: set<nat>, s: nat, pages: Layout)
  {
    && (forall n | n in pages :: n < USER_PAGES && UserFlags(pages[n].attrs) && View(mem, 0, s, UserVa(n)).None?)
    && (forall n | n in pages :: pages[n].frame !in free && pages[n].frame !in loc && pages[n].frame !in leaf)
    && (forall m, n | m in pages && n in pages && pages[m].frame == pages[n].frame :: m == n)
  }

  lemma RootIff(mem: Mem, loc: Places, at: Tables, leaf: Places, held: Held, kernel: nat, free: set<nat>, r: nat)
    requires VmOk(mem, loc, at, leaf, held, kernel, free)
    ensures IsRoot(loc, r) <==> Space(kernel, held, r)
  {
    hide Forest, UserTables, UserPages, Spare;
  }

  lemma MapsNone(kernel: nat, held: Held, mem: Mem, s: nat)
    ensures MapsAll(kernel, held, mem, mem, s, map[])
  {
    hide View, Num;
  }

  lemma MapsNext(kernel: nat, held: Held, mem: Mem, mem1: Mem, mem2: Mem, s: nat, done: Layout, n: nat, m: Mapping,
                 loc: Places, at: Tables, leaf: Places, free: set<nat>)
    requires VmOk(mem1, loc, at, leaf, held, kernel, free) && s in held
    requires MapsAll(kernel, held, mem, mem1, s, done) && n < USER_PAGES
    requires OnePage(kernel, loc, held, mem1, mem2, s, UserVa(n), Some(m))
    ensures MapsAll(kernel, held, mem, mem2, s, done[n := m])
  {
    hide View, Num, VmOk, UserVa;
    NumberOfPage(n);
    SpaceIsRoot(mem1, loc, at, leaf, held, kernel, free, s);
    forall r, v | Space(kernel, held, r) && VaOk(v)
      ensures View(mem2, 0, r, v) == if r == s && Num(v) in done[n := m] then Some(done[n := m][Num(v)])
              else View(mem, 0, r, v)
    {
      RootIff(mem1, loc, at, leaf, held, kernel, free, r);
      NumUnique(v, UserVa(n));
      assert View(mem1, 0, r, v) == if r == s && Num(v) in done then Some(done[Num(v)]) else View(mem, 0, r, v);
    }
  }

  lemma NumberOfPage(n: nat)
    requires n < USER_PAGES
    ensures Num(UserVa(n)) == n && n * 0x1000 < USER_SPACE_END && n * 0x1000 % 0x1000 == 0
  {
    NumberOf(n);
  }

  lemma TablesOfNext(s: nat, keys: set<nat>, n: nat)
    ensures TablesOf(s, keys + {n}) == TablesOf(s, keys) + TablePlaces(s, UserVa(n))
  {
    hide TablePlaces, UserVa;
    forall p | p in TablePlaces(s, UserVa(n)) ensures p in TablesOf(s, keys + {n}) {
      assert n in keys + {n};
    }
    forall p | p in TablesOf(s, keys) ensures p in TablesOf(s, keys + {n}) {
      var m :| m in keys && p in TablePlaces(s, UserVa(m));
      assert m in keys + {n};
    }
  }

  lemma TablesOfLess(s: nat, keys: set<nat>, n: nat)
    requires n in keys
    ensures TablePlaces(s, UserVa(n)) <= TablesOf(s, keys)
  {
    hide TablePlaces, UserVa;
  }

  lemma TablesOfSome(s: nat, keys: set<nat>, all: set<nat>)
    requires keys <= all
    ensures TablesOf(s, keys) <= TablesOf(s, all)
  {
    hide TablePlaces, UserVa;
  }

  /** What mapping page after page keeps, `done` being mapped so far; the other arguments are the start. */
  ghost predicate Along(vm: AddressSpaces, s: nat, pages: Layout, done: set<nat>,
                        mem0: Mem, loc0: Places, at0: Tables, leaf0: Places, free0: set<nat>)
    reads vm
  {
    && vm.Valid() && s in vm.held && done <= pages.Keys
    && MapsAll(vm.kernel, vm.held, mem0, vm.mem, s, Part(pages, done))
    && Made(at0, free0, vm.at, vm.free, TablesOf(s, done)) && Kept(loc0, free0, vm.loc, vm.free)
    && Owns(leaf0, vm.leaf, FramesIn(Part(pages, done)))
  }

  /** `frames` came to the pages of processes. */
  ghost predicate Owns(leaf0: Places, leaf: Places, frames: set<nat>) { leaf.Keys == leaf0.Keys + frames }

  lemma OwnsNext(leaf0: Places, leaf: Places, frames: set<nat>, f: nat, p: Place)
    requires Owns(leaf0, leaf, frames)
    ensures Owns(leaf0, leaf[f := p], frames + {f})
  {
    assert leaf[f := p].Keys == leaf.Keys + {f};
  }

  lemma PartNext(pages: Layout, done: set<nat>, n: nat)
    requires n in pages && n !in done && done <= pages.Keys
    ensures Part(pages, done + {n}) == Part(pages, done)[n := pages[n]]
    ensures FramesIn(Part(pages, done + {n})) == FramesIn(Part(pages, done)) + {pages[n].frame}
  {
    var a, b := Part(pages, done), Part(pages, done + {n});
    assert b == a[n := pages[n]];
    forall f | f in FramesIn(a) + {pages[n].frame} ensures f in FramesIn(b) {
      if f == pages[n].frame {
        assert n in b;
      } else {
        var m :| m in a && a[m].frame == f;
        assert m in b && b[m] == a[m];
      }
    }
  }

  lemma KeptTrans(l0: Places, f0: set<nat>, l1: Places, f1: set<nat>, l2: Places, f2: set<nat>)
    requires Kept(l0, f0, l1, f1) && Kept(l1, f1, l2, f2)
    ensures Kept(l0, f0, l2, f2)
  {
  }

  /** The next page is not mapped yet, and its frame is still unused. */
  lemma StillUnused(mem0: Mem, loc0: Places, leaf0: Places, free0: set<nat>, s: nat, pages: Layout, done: set<nat>,
                    n: nat,
                    kernel: nat, held: Held, mem: Mem, loc: Places, leaf: Places, free: set<nat>)
    requires CanMap(mem0, loc0, leaf0, free0, s, pages) && n in pages && n !in done && done <= pages.Keys && s in held
    requires MapsAll(kernel, held, mem0, mem, s, Part(pages, done)) && Kept(loc0, free0, loc, free)
    requires Owns(leaf0, leaf, FramesIn(Part(pages, done)))
    ensures n < USER_PAGES && UserFlags(pages[n].attrs) && View(mem, 0, s, UserVa(n)).None?
    ensures pages[n].frame !in free && pages[n].frame !in loc && pages[n].frame !in leaf
  {
    hide View, UserVa, Num;
    NumberOfPage(n);
    assert pages[n].frame !in leaf.Keys && pages[n].frame !in loc.Keys;
  }

  method MapOne(vm: AddressSpaces, s: nat, pages: Layout, n: nat, ghost done: set<nat>,
                ghost mem0: Mem, ghost loc0: Places, ghost at0: Tables, ghost leaf0: Places, ghost free0: set<nat>)
    requires Along(vm, s, pages, done, mem0, loc0, at0, leaf0, free0) && CanMap(mem0, loc0, leaf0, free0, s, pages)
    requires n in pages && n !in done && Lacking(vm.mem, s, UserVa(n)) <= |vm.free|
    modifies vm
    ensures Along(vm, s, pages, done + {n}, mem0, loc0, at0, leaf0, free0) && vm.held == old(vm.held)
  {
    hide VmOk, View, UserVa, Num, MapsAll, Part, FramesIn, TablesOf, TablePlaces, Made, Kept, CanMap, OnePage, Lacking,
      Enough, UserFlags, Owns, AllFrames;
    var m := pages[n];
    StillUnused(mem0, loc0, leaf0, free0, s, pages, done, n, vm.kernel, vm.held, vm.mem, vm.loc, vm.leaf, vm.free);
    NumberOfPage(n);
    UserPage(n * 0x1000);
    VaOfPage(n);
    SpaceIsRoot(vm.mem, vm.loc, vm.at, vm.leaf, vm.held, vm.kernel, vm.free, s);
    LackingEnough(vm.mem, vm.loc, vm.at, vm.leaf, vm.held, vm.kernel, vm.free, s, UserVa(n));
    vm.Map(s, n * 0x1000, m.frame, m.attrs);
    MapsNext(vm.kernel, vm.held, mem0, old(vm.mem), vm.mem, s, Part(pages, done), n, m, old(vm.loc), old(vm.at),
      old(vm.leaf), old(vm.free));
    MadeTrans(at0, free0, old(vm.at), old(vm.free), vm.at, vm.free, TablesOf(s, done), TablePlaces(s, UserVa(n)));
    TablesOfNext(s, done, n);
    KeptTrans(loc0, free0, old(vm.loc), old(vm.free), vm.loc, vm.free);
    PartNext(pages, done, n);
    OwnsNext(leaf0, old(vm.leaf), FramesIn(Part(pages, done)), m.frame, Place(s, PathTo(PageOf(n * 0x1000), 4)));
  }

  lemma VaOfPage(n: nat)
    ensures PageOf(n * 0x1000) == UserVa(n)
  {
  }

  /** Map all of `pages` into `s`. `false` is where the source panics: no frame is left for a table. That
      happens exactly when there were fewer free frames than missing tables. */
  method MapAll(vm: AddressSpaces, s: nat, pages: Layout) returns (ok: bool)
    requires vm.Valid() && s in vm.held && CanMap(vm.mem, vm.loc, vm.leaf, vm.free, s, pages)
    modifies vm
    ensures ok <==> Enough(TablesOf(s, pages.Keys), old(vm.at), old(vm.free))
    ensures vm.Valid() && vm.held == old(vm.held)
    ensures ok ==> MapsAll(vm.kernel, vm.held, old(vm.mem), vm.mem, s, pages)
    ensures ok ==> Made(old(vm.at), old(vm.free), vm.at, vm.free, TablesOf(s, pages.Keys))
    ensures ok ==> Kept(old(vm.loc), old(vm.free), vm.loc, vm.free) && Owns(old(vm.leaf), vm.leaf, FramesIn(pages))
  {
    hide VmOk, View, UserVa, Num, MapsAll, Part, FramesIn, TablesOf, Made, Kept, CanMap, Lacking, Enough, Owns;
    ghost var mem0, loc0, at0, leaf0, free0 := vm.mem, vm.loc, vm.at, vm.leaf, vm.free;
    ghost var done: set<nat> := {};
    var keys := pages.Keys;
    AlongStart(vm, s, pages);
    while keys != {}
      invariant keys <= pages.Keys && done == pages.Keys - keys && vm.held == old(vm.held)
      invariant Along(vm, s, pages, done, mem0, loc0, at0, leaf0, free0)
      decreases |keys|
    {
      var n :| n in keys;
      if Lacking(vm.mem, s, UserVa(n)) > |vm.free| {
        TooFew(vm, s, pages, done, n, mem0, loc0, at0, leaf0, free0);
        return false;
      }
      MapOne(vm, s, pages, n, done, mem0, loc0, at0, leaf0, free0);
      keys, done := keys - {n}, done + {n};
    }
    assert done == pages.Keys;
    AllThere(s, pages, at0, free0, vm.at, vm.free);
    return true;
  }

  lemma AlongStart(vm: AddressSpaces, s: nat, pages: Layout)
    requires vm.Valid() && s in vm.held
    ensures Along(vm, s, pages, {}, vm.mem, vm.loc, vm.at, vm.leaf, vm.free)
  {
    hide VmOk, View, Num, Made, Kept, Owns, MapsAll, Part, FramesIn, TablesOf;
    Nothing(s, pages, vm.loc, vm.at, vm.leaf, vm.free);
    MapsNone(vm.kernel, vm.held, vm.mem, s);
  }

  lemma Nothing(s: nat, pages: Layout, loc: Places, at: Tables, leaf: Places, free: set<nat>)
    ensures Part(pages, {}) == map[] && Made(at, free, at, free, TablesOf(s, {})) && Kept(loc, free, loc, free)
    ensures Owns(leaf, leaf, FramesIn(map[]))
  {
    assert TablesOf(s, {}) == {} && {} - at.Keys == {} && FramesIn(map[]) == {};
  }

  lemma TooFew(vm: AddressSpaces, s: nat, pages: Layout, done: set<nat>, n: nat,
               mem0: Mem, loc0: Places, at0: Tables, leaf0: Places, free0: set<nat>)
    requires Along(vm, s, pages, done, mem0, loc0, at0, leaf0, free0) && CanMap(mem0, loc0, leaf0, free0, s, pages)
    requires n in pages && Lacking(vm.mem, s, UserVa(n)) > |vm.free|
    ensures !Enough(TablesOf(s, pages.Keys), at0, free0)
  {
    hide VmOk, View, UserVa, Num, MapsAll, Part, FramesIn, TablesOf, TablePlaces, Made, Kept, Lacking, Enough,
      UserFlags;
    NumberOfPage(n);
    UserPage(n * 0x1000);
    VaOfPage(n);
    SpaceIsRoot(vm.mem, vm.loc, vm.at, vm.leaf, vm.held, vm.kernel, vm.free, s);
    LackingEnough(vm.mem, vm.loc, vm.at, vm.leaf, vm.held, vm.kernel, vm.free, s, UserVa(n));
    TablesOfSome(s, done, pages.Keys);
    EnoughStill(TablesOf(s, pages.Keys), at0, free0, vm.at, vm.free, TablesOf(s, done));
    TablesOfLess(s, pages.Keys, n);
    if Enough(TablesOf(s, pages.Keys), vm.at, vm.free) {
      EnoughLess(TablesOf(s, pages.Keys), TablePlaces(s, UserVa(n)), vm.at, vm.free);
    }
  }

  lemma AllThere(s: nat, pages: Layout, at0: Tables, free0: set<nat>, at: Tables, free: set<nat>)
    requires Made(at0, free0, at, free, TablesOf(s, pages.Keys))
    ensures Part(pages, pages.Keys) == pages && Enough(TablesOf(s, pages.Keys), at0, free0)
  {
    hide TablesOf;
  }
}
