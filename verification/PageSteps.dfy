/** What one step on the page tables does to every address space at once. */
module PageSteps {
  import opened Wrappers
  import opened PageEntries
  import opened PageTables
  import opened PageOwners

  type Held = map<nat, set<nat>>

  /** Free frames are neither tables nor pages of a process. */
  ghost predicate Spare(loc: Places, leaf: Places, free: set<nat>)
  {
    forall f | f in free :: f !in loc && f !in leaf
  }

  ghost predicate VmOk(mem: Mem, loc: Places, at: Tables, leaf: Places, held: Held, kernel: nat, free: set<nat>)
  {
    TablesOk(mem, loc, kernel) && Owned(mem, loc, at, leaf, held, kernel) && Spare(loc, leaf, free)
  }

  /** No 1 GiB page is mapped anywhere. */
  ghost predicate NoGiant(mem: Mem, loc: Places)
  {
    forall t, i | t in loc && loc[t].path.P1? && 0 <= i < ENTRIES :: !IsLeaf(1, Get(mem, t, i))
  }

  /** New tables came out of the free frames, and every translation stayed. */
  ghost predicate Grown(mem: Mem, loc: Places, free: set<nat>, mem': Mem, loc': Places, free': set<nat>)
  {
    && SameViews(mem, loc, mem', loc')
    && (NoGiant(mem, loc) ==> NoGiant(mem', loc'))
    && free' <= free
    && loc'.Keys == loc.Keys + (free - free')
  }

  /** Frames only move from the free set to the tables. */
  ghost predicate Kept(loc: Places, free: set<nat>, loc': Places, free': set<nat>)
  {
    free' <= free && loc'.Keys == loc.Keys + (free - free')
  }

  /** All frames that are free or in use. */
  ghost function AllFrames(free: set<nat>, loc: Places, leaf: Places): set<nat> { free + loc.Keys + leaf.Keys }

  lemma OwnedFrames(free: set<nat>, loc: Places, leaf: Places, free': set<nat>, loc': Places, f: nat, p: Place)
    requires Kept(loc, free, loc', free')
    ensures AllFrames(free', loc', leaf[f := p]) == AllFrames(free, loc, leaf) + {f}
  {
  }

  lemma TakenFrames(free: set<nat>, loc: Places, leaf: Places, f: nat)
    requires f in free && f !in loc && f !in leaf
    ensures AllFrames(free - {f}, loc, leaf) == AllFrames(free, loc, leaf) - {f} && f in AllFrames(free, loc, leaf)
  {
  }

  // ------------------------------------------------------ frames for tables

  /** The tables `more` exist, and each of them that did not took one free frame. */
  ghost predicate Made(at: Tables, free: set<nat>, at': Tables, free': set<nat>, more: set<Place>)
  {
    at'.Keys == at.Keys + more && |free| == |free'| + |more - at.Keys|
  }

  lemma MadeOne(at: Tables, free: set<nat>, p: Place, f: nat)
    requires p !in at && f in free
    ensures Made(at, free, at[p := f], free - {f}, {p})
  {
    assert {p} - at.Keys == {p};
  }

  lemma MadeNone(at: Tables, free: set<nat>, p: Place)
    requires p in at
    ensures Made(at, free, at, free, {p})
  {
    assert {p} - at.Keys == {};
  }

  lemma MadeTrans(a0: Tables, f0: set<nat>, a1: Tables, f1: set<nat>, a2: Tables, f2: set<nat>, n1: set<Place>,
                  n2: set<Place>)
    requires Made(a0, f0, a1, f1, n1) && Made(a1, f1, a2, f2, n2)
    ensures Made(a0, f0, a2, f2, n1 + n2)
  {
    CountParts(a0.Keys, n1, n2);
    assert a0.Keys + (n1 + n2) == a0.Keys + n1 + n2;
  }

  lemma CountParts(k: set<Place>, n1: set<Place>, n2: set<Place>)
    ensures |n1 + n2 - k| == |n1 - k| + |n2 - (k + n1)|
  {
    assert n1 + n2 - k == (n1 - k) + (n2 - (k + n1));
  }

  lemma MadeTwice(a0: Tables, f0: set<nat>, a1: Tables, f1: set<nat>, a2: Tables, f2: set<nat>, p: Place)
    requires Made(a0, f0, a1, f1, {p}) && Made(a1, f1, a2, f2, {p})
    ensures Made(a0, f0, a2, f2, {p})
  {
    hide Made;
    MadeTrans(a0, f0, a1, f1, a2, f2, {p}, {p});
    assert {p} + {p} == {p};
  }

  lemma MadeKeys(at: Tables, free: set<nat>, at': Tables, free': set<nat>, more: set<Place>)
    requires Made(at, free, at', free', more)
    ensures at'.Keys == at.Keys + more
  {
  }

  lemma MadeThere(at: Tables, free: set<nat>, at': Tables, free': set<nat>, more: set<Place>, p: Place)
    requires Made(at, free, at', free', more)
    ensures p in at' <==> p in at || p in more
  {
    assert p in at'.Keys <==> p in at.Keys + more;
  }

  /** There is a free frame for each table of `need` that does not exist yet. */
  ghost predicate Enough(need: set<Place>, at: Tables, free: set<nat>) { |need - at.Keys| <= |free| }

  lemma EnoughFor(need: set<Place>, at: Tables, free: set<nat>, p: Place)
    requires Enough(need, at, free) && p in need
    ensures p in at || free != {}
  {
    if p !in at {
      assert p in need - at.Keys;
    }
  }

  lemma EnoughLess(need: set<Place>, less: set<Place>, at: Tables, free: set<nat>)
    requires Enough(need, at, free) && less <= need
    ensures Enough(less, at, free)
  {
    SubsetSize(less - at.Keys, need - at.Keys);
  }

  lemma SubsetSize<T>(a: set<T>, b: set<T>)
    requires a <= b
    ensures |a| <= |b|
  {
    assert b == a + (b - a);
  }

  /** Making some of the tables leaves enough frames for the others, and what was not enough stays short. */
  lemma EnoughStill(need: set<Place>, at: Tables, free: set<nat>, at': Tables, free': set<nat>, more: set<Place>)
    requires Made(at, free, at', free', more) && more <= need
    ensures Enough(need, at, free) <==> Enough(need, at', free')
  {
    assert need - at.Keys == (need - at'.Keys) + (more - at.Keys);
    assert (need - at'.Keys) !! (more - at.Keys);
  }

  /** The tables on the way to page `va` of `root`. */
  ghost function TablePlaces(root: nat, va: Va): set<Place>
  {
    {Place(root, PathTo(va, 1)), Place(root, PathTo(va, 2)), Place(root, PathTo(va, 3))}
  }

  /** Those of a 2 MiB block. */
  ghost function DirPlaces(root: nat, va: Va): set<Place> { {Place(root, PathTo(va, 1)), Place(root, PathTo(va, 2))} }

  // The tables on the way are made one after the other, each from the frames that are left.

  lemma DirFirst(root: nat, va: Va, at: Tables, free: set<nat>)
    requires Enough(DirPlaces(root, va), at, free)
    ensures Place(root, PathTo(va, 1)) in at || free != {}
  {
    EnoughFor(DirPlaces(root, va), at, free, Place(root, PathTo(va, 1)));
  }

  lemma DirSecond(root: nat, va: Va, at: Tables, free: set<nat>, at': Tables, free': set<nat>)
    requires Enough(DirPlaces(root, va), at, free) && Made(at, free, at', free', {Place(root, PathTo(va, 1))})
    ensures Place(root, PathTo(va, 2)) in at' || free' != {}
  {
    hide Made, Enough;
    EnoughStill(DirPlaces(root, va), at, free, at', free', {Place(root, PathTo(va, 1))});
    EnoughFor(DirPlaces(root, va), at', free', Place(root, PathTo(va, 2)));
  }

  lemma DirDone(root: nat, va: Va, a0: Tables, f0: set<nat>, a1: Tables, f1: set<nat>, a2: Tables, f2: set<nat>)
    requires Made(a0, f0, a1, f1, {Place(root, PathTo(va, 1))}) && Made(a1, f1, a2, f2, {Place(root, PathTo(va, 2))})
    ensures Made(a0, f0, a2, f2, DirPlaces(root, va))
  {
    hide Made;
    MadeTrans(a0, f0, a1, f1, a2, f2, {Place(root, PathTo(va, 1))}, {Place(root, PathTo(va, 2))});
    assert DirPlaces(root, va) == {Place(root, PathTo(va, 1))} + {Place(root, PathTo(va, 2))};
  }

  lemma TablesFirst(root: nat, va: Va, at: Tables, free: set<nat>)
    requires Enough(TablePlaces(root, va), at, free)
    ensures Enough(DirPlaces(root, va), at, free)
  {
    hide Enough;
    EnoughLess(TablePlaces(root, va), DirPlaces(root, va), at, free);
  }

  lemma TablesThird(root: nat, va: Va, at: Tables, free: set<nat>, at': Tables, free': set<nat>)
    requires Enough(TablePlaces(root, va), at, free) && Made(at, free, at', free', DirPlaces(root, va))
    ensures Place(root, PathTo(va, 3)) in at' || free' != {}
  {
    hide Made, Enough;
    EnoughStill(TablePlaces(root, va), at, free, at', free', DirPlaces(root, va));
    EnoughFor(TablePlaces(root, va), at', free', Place(root, PathTo(va, 3)));
  }

  lemma TablesDone(root: nat, va: Va, a0: Tables, f0: set<nat>, a1: Tables, f1: set<nat>, a2: Tables, f2: set<nat>)
    requires Made(a0, f0, a1, f1, DirPlaces(root, va)) && Made(a1, f1, a2, f2, {Place(root, PathTo(va, 3))})
    ensures Made(a0, f0, a2, f2, TablePlaces(root, va))
  {
    hide Made;
    MadeTrans(a0, f0, a1, f1, a2, f2, DirPlaces(root, va), {Place(root, PathTo(va, 3))});
    assert TablePlaces(root, va) == DirPlaces(root, va) + {Place(root, PathTo(va, 3))};
  }

  lemma GrownTrans(m0: Mem, l0: Places, f0: set<nat>, m1: Mem, l1: Places, f1: set<nat>, m2: Mem, l2: Places,
                   f2: set<nat>)
    requires Grown(m0, l0, f0, m1, l1, f1) && Grown(m1, l1, f1, m2, l2, f2)
    ensures Grown(m0, l0, f0, m2, l2, f2)
  {
  }

  lemma GrownSelf(mem: Mem, loc: Places, free: set<nat>)
    ensures Grown(mem, loc, free, mem, loc, free)
  {
  }

  /** A root's own translations survive growth. */
  lemma GrownRoots(mem: Mem, loc: Places, free: set<nat>, mem': Mem, loc': Places, free': set<nat>)
    requires Grown(mem, loc, free, mem', loc', free')
    ensures forall r, v | IsRoot(loc, r) && VaOk(v) :: View(mem', 0, r, v) == View(mem, 0, r, v)
  {
  }

  /** Hanging a table that stands for the old entry is growth. */
  lemma HungStep(mem: Mem, mem': Mem, loc: Places, at: Tables, leaf: Places, held: Held, kernel: nat, free: set<nat>,
                 t: nat, i: nat, f: nat, words: seq<Word>)
    requires VmOk(mem, loc, at, leaf, held, kernel, free) && t in loc && f in free && i < ENTRIES
             && Level(loc[t].path) < 3
    requires Hung(mem, mem', t, i, f, words) && Replaces(mem, Level(loc[t].path), t, i, words)
    requires !IsTable(Level(loc[t].path), Get(mem, t, i)) && (loc[t].path == P0 ==> !Get(mem, t, i).present)
    requires loc[t].root == kernel || words == Zeroed()
    requires loc[t].root == kernel || loc[t].path != P0 || i < KERNEL_START
    ensures var p := Place(loc[t].root, Child(loc[t].path, i));
            && VmOk(mem', loc[f := p], at[p := f], leaf, held, kernel, free - {f})
            && Grown(mem, loc, free, mem', loc[f := p], free - {f})
  {
    hide TablesOk, Owned, SameViews, Hung, Replaces, IsTable;
    assert f !in loc && f !in leaf;
    HungPlace(mem, loc, kernel, t, i);
    HungTables(mem, mem', loc, kernel, t, i, f, words);
    HungOwned(mem, mem', loc, at, leaf, held, kernel, t, i, f, words);
    HungViews(mem, mem', loc, kernel, t, i, f, words);
    if NoGiant(mem, loc) {
      HungGiant(mem, mem', loc, t, i, f, words);
    }
  }

  lemma HungGiant(mem: Mem, mem': Mem, loc: Places, t: nat, i: nat, f: nat, words: seq<Word>)
    requires NoGiant(mem, loc) && t in loc && f !in loc && i < ENTRIES && Level(loc[t].path) < 3
    requires Hung(mem, mem', t, i, f, words) && Replaces(mem, Level(loc[t].path), t, i, words)
    requires loc[t].path == P0 ==> !Get(mem, t, i).present
    ensures NoGiant(mem', loc[f := Place(loc[t].root, Child(loc[t].path, i))])
  {
    hide LeafMapping;
    forall x, j | x in loc[f := Place(loc[t].root, Child(loc[t].path, i))]
      && loc[f := Place(loc[t].root, Child(loc[t].path, i))][x].path.P1? && 0 <= j < ENTRIES
      ensures !IsLeaf(1, Get(mem', x, j))
    {
      HungGet(mem, mem', t, i, f, words, x, j);
      assert x == f ==> View(mem, 0, t, Va(i, j, 0, 0)) == None;
    }
  }

  lemma HungPlace(mem: Mem, loc: Places, kernel: nat, t: nat, i: nat)
    requires TablesOk(mem, loc, kernel) && t in loc
    requires loc[t].root == kernel || loc[t].path != P0 || i < KERNEL_START
    ensures ChildPlace(kernel, loc[t], i) == Place(loc[t].root, Child(loc[t].path, i))
  {
  }

  /** A walk from the root comes to the table at its place. */
  lemma {:induction false} PlaceView(mem: Mem, loc: Places, at: Tables, kernel: nat, k: nat, t: nat, va: Va)
    requires TablesOk(mem, loc, kernel) && Forest(mem, loc, at) && t in loc && k <= 3 && loc[t].path == PathTo(va, k)
    ensures IsRoot(loc, loc[t].root) && View(mem, 0, loc[t].root, va) == View(mem, k, t, va)
    decreases k
  {
    assert TableOk(mem, loc, kernel, t);
    if k > 0 {
      assert Hangs(mem, at, loc[t], t);
      var p := at[Parent(loc[t])];
      assert p in loc && loc[p] == Parent(loc[t]);
      PlaceView(mem, loc, at, kernel, k - 1, p, va);
      assert View(mem, k - 1, p, va) == View(mem, k, t, va);
    }
  }

  function FirstIndex(p: Path): nat
  {
    match p case P0 => 0 case P1(a) => a case P2(a, _) => a case P3(a, _, _) => a case P4(a, _, _, _) => a
  }

  /** A process owns no table in the kernel half. */
  lemma {:induction false} UserHalf(mem: Mem, loc: Places, at: Tables, kernel: nat, t: nat)
    requires TablesOk(mem, loc, kernel) && Forest(mem, loc, at) && t in loc && loc[t].root != kernel
    ensures FirstIndex(loc[t].path) < KERNEL_START
    decreases Level(loc[t].path)
  {
    if loc[t].path != P0 {
      assert Hangs(mem, at, loc[t], t);
      var p := at[Parent(loc[t])];
      assert p in loc && loc[p] == Parent(loc[t]);
      assert TableOk(mem, loc, kernel, p);
      assert EntryOk(mem, loc, kernel, p, LastIndex(loc[t].path));
      UserHalf(mem, loc, at, kernel, p);
    }
  }

  /** Whether space `r` translates `va` through the tables of `root`. */
  ghost predicate Sees(kernel: nat, held: Held, r: nat, root: nat, va: Va)
  {
    r == root || (root == kernel && va.i0 >= KERNEL_START && r in held && va.i0 in held[r])
  }

  /** A write below the root: pages behind the entry change in the spaces that see them, all others stay. */
  lemma PutView(mem: Mem, loc: Places, at: Tables, held: Held, kernel: nat, t: nat, i: nat, w: Word, r: nat, va: Va)
    requires TablesOk(mem, loc, kernel) && HeldOk(mem, loc, kernel, held) && t in loc && 0 < Level(loc[t].path) <= 3
    requires var mem' := Put(mem, t, i, w);
             TablesOk(mem', loc, kernel) && Forest(mem', loc, at) && OnlyEntry(mem, mem', loc, t, i)
    requires IsRoot(loc, r) && VaOk(va)
    ensures var mem' := Put(mem, t, i, w);
            View(mem', 0, r, va) == if Hits(loc, t, i, loc[t].root, va) && Sees(kernel, held, r, loc[t].root, va)
                                    then View(mem', Level(loc[t].path), t, va) else View(mem, 0, r, va)
  {
    hide TablesOk, Forest, OnlyEntry, IsTable, IsLeaf, LeafMapping;
    var mem' := Put(mem, t, i, w);
    var root := loc[t].root;
    if Hits(loc, t, i, Owner(kernel, r, va), va) {
      PlaceView(mem', loc, at, kernel, Level(loc[t].path), t, va);
      if r != root {
        SharedSlot(mem, loc, held, kernel, t, i, w, r, va);
      }
    } else {
      if root != kernel {
        UserHalf(mem', loc, at, kernel, t);
      }
      EntryChangeFromRoot(mem, mem', loc, kernel, t, i, r, va);
    }
  }

  lemma SharedSlot(mem: Mem, loc: Places, held: Held, kernel: nat, t: nat, i: nat, w: Word, r: nat, va: Va)
    requires HeldOk(mem, loc, kernel, held) && t in loc && 0 < Level(loc[t].path)
    requires TablesOk(Put(mem, t, i, w), loc, kernel)
    requires IsRoot(loc, r) && VaOk(va) && r != kernel && va.i0 >= KERNEL_START
    ensures r in held && Get(Put(mem, t, i, w), r, va.i0) == Get(mem, r, va.i0)
    ensures va.i0 in held[r] ==> View(Put(mem, t, i, w), 0, r, va) == View(Put(mem, t, i, w), 0, kernel, va)
    ensures va.i0 !in held[r] ==> View(Put(mem, t, i, w), 0, r, va) == None == View(mem, 0, r, va)
  {
  }

  /** Exactly page `va` of `root` now translates to `m`, in every space that sees it. */
  ghost predicate OnePage(kernel: nat, loc: Places, held: Held, mem: Mem, mem': Mem, root: nat, va: Va,
                          m: Option<Mapping>)
  {
    forall r, v | IsRoot(loc, r) && VaOk(v) ::
      View(mem', 0, r, v) == if v == va && Sees(kernel, held, r, root, va) then m else View(mem, 0, r, v)
  }

  /** Writing the last-level entry of `va`. */
  lemma PutPage(mem: Mem, loc: Places, at: Tables, held: Held, kernel: nat, t: nat, w: Word, va: Va)
    requires TablesOk(mem, loc, kernel) && HeldOk(mem, loc, kernel, held) && Forest(mem, loc, at)
    requires t in loc && loc[t].path == PathTo(va, 3) && VaOk(va)
    ensures OnePage(kernel, loc, held, mem, Put(mem, t, va.i3, w), loc[t].root, va,
                    if w.present then Some(LeafMapping(3, w, va)) else None)
  {
    hide TablesOk, Forest, HeldOk, LeafMapping, OnlyEntry;
    var mem' := Put(mem, t, va.i3, w);
    PutTables(mem, loc, kernel, t, va.i3, w);
    PutForest(mem, loc, at, t, va.i3, w);
    PutGet(mem, loc, kernel, t, va.i3, w);
    forall r, v | IsRoot(loc, r) && VaOk(v)
      ensures View(mem', 0, r, v) == if v == va && Sees(kernel, held, r, loc[t].root, va)
                                     then if w.present then Some(LeafMapping(3, w, va)) else None
                                     else View(mem, 0, r, v)
    {
      PutView(mem, loc, at, held, kernel, t, va.i3, w, r, v);
      assert v == va ==> View(mem', 3, t, v) == if w.present then Some(LeafMapping(3, w, va)) else None;
      assert Hits(loc, t, va.i3, loc[t].root, v) <==> v == va;
    }
  }

  lemma PutGet(mem: Mem, loc: Places, kernel: nat, t: nat, i: nat, w: Word)
    requires TablesOk(mem, loc, kernel) && t in loc && i < ENTRIES
    ensures t in mem && |mem[t]| == ENTRIES && Get(Put(mem, t, i, w), t, i) == w
  {
  }

  /** A page write after growth is a page write. */
  lemma OnePageAfter(kernel: nat, loc: Places, free: set<nat>, loc': Places, free': set<nat>, held: Held,
                     mem: Mem, mem1: Mem, mem2: Mem, root: nat, va: Va, m: Option<Mapping>)
    requires Grown(mem, loc, free, mem1, loc', free') && OnePage(kernel, loc', held, mem1, mem2, root, va, m)
    ensures OnePage(kernel, loc, held, mem, mem2, root, va, m)
  {
  }
}
