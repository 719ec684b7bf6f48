/** Facts about a well-formed memory that the steps of the virtual memory manager rely on. */
module PageSpaces {
  import opened Wrappers
  import opened PageEntries
  import opened PageTables
  import opened PageOwners
  import opened PageSteps

  /** First address past the user half. */
  const USER_SPACE_END: nat := 0x8000_0000_0000

  const RX := Attrs(false, false, false, false, false, false, false, false, 0, 0)
  const RO := RX.(nx := true)
  const RW := RO.(writable := true)
  const WC := RW.(pwt := true)
  const UC := RW.(pcd := true)

  predicate KernelFlags(a: Attrs) { a == RX || a == RO || a == RW || a == WC || a == UC }

  predicate UserFlags(a: Attrs) { a == RX.(user := true) || a == RO.(user := true) || a == RW.(user := true) }

  lemma UserPage(virt: nat)
    requires virt < USER_SPACE_END
    ensures PageOf(virt).i0 < KERNEL_START
  {
  }

  lemma LinkTable(mem: Mem, loc: Places, at: Tables, leaf: Places, held: Held, kernel: nat, free: set<nat>, t: nat,
                  f: nat)
    requires VmOk(mem, loc, at, leaf, held, kernel, free) && t in loc
    ensures t in mem && |mem[t]| == ENTRIES && (f in free ==> f != t)
  {
  }

  /** A present large entry below a root belongs to the kernel's tables. */
  lemma LargeIsKernel(mem: Mem, loc: Places, at: Tables, leaf: Places, held: Held, kernel: nat, free: set<nat>, t: nat,
                      i: nat)
    requires VmOk(mem, loc, at, leaf, held, kernel, free) && t in loc && i < ENTRIES
             && (loc[t].path.P1? || loc[t].path.P2?)
    requires Get(mem, t, i).present && Get(mem, t, i).bit7
    ensures loc[t].root == kernel
  {
    assert loc[t].root != kernel ==> UserEntry(mem, loc, leaf, t, i);
  }

  lemma NotLarge(mem: Mem, loc: Places, at: Tables, leaf: Places, held: Held, kernel: nat, free: set<nat>, root: nat,
                 i: nat)
    requires VmOk(mem, loc, at, leaf, held, kernel, free) && IsRoot(loc, root) && i < ENTRIES
    ensures Get(mem, root, i).present ==> !Get(mem, root, i).bit7
  {
    assert TableOk(mem, loc, kernel, root);
    assert EntryOk(mem, loc, kernel, root, i);
  }

  /** A place is taken exactly when the entry that leads to it points to a table. */
  lemma PlaceIff(mem: Mem, loc: Places, at: Tables, leaf: Places, held: Held, kernel: nat, free: set<nat>, t: nat,
                 i: nat)
    requires VmOk(mem, loc, at, leaf, held, kernel, free) && t in loc && i < ENTRIES && Level(loc[t].path) < 3
    requires loc[t].root == kernel || loc[t].path != P0 || i < KERNEL_START
    ensures IsTable(Level(loc[t].path), Get(mem, t, i)) <==> Place(loc[t].root, Child(loc[t].path, i)) in at
  {
    hide UserTables, UserPages, HeldOk;
    var p := Place(loc[t].root, Child(loc[t].path, i));
    ParentOfChild(loc[t], i);
    assert TableOk(mem, loc, kernel, t) && EntryOk(mem, loc, kernel, t, i);
    assert at[loc[t]] == t;
    assert p in at ==> Hangs(mem, at, p, at[p]);
  }

  /** One step of a walk through tables that the walk's own root owns. */
  lemma WalkDown(mem: Mem, loc: Places, at: Tables, leaf: Places, held: Held, kernel: nat, free: set<nat>, t: nat,
                 k: nat, va: Va)
    requires VmOk(mem, loc, at, leaf, held, kernel, free) && t in loc && VaOk(va) && k < 3
             && loc[t].path == PathTo(va, k)
    requires IsTable(k, Get(mem, t, Ix(va, k))) && (loc[t].root == kernel || va.i0 < KERNEL_START)
    ensures var c := Get(mem, t, Ix(va, k)).addr;
            c in loc && loc[c] == Place(loc[t].root, PathTo(va, k + 1))
              && View(mem, k, t, va) == View(mem, k + 1, c, va)
  {
    ChildInPlace(mem, loc, kernel, t, k, va);
  }

  /** How many large pages must be split to come to the last-level entry of `va`. */
  function Splits(mem: Mem, root: nat, va: Va): nat
  {
    var e0 := Get(mem, root, va.i0);
    if !e0.present || e0.bit7 then 0 else
    var e1 := Get(mem, e0.addr, va.i1);
    if !e1.present then 0 else if e1.bit7 then 2 else
    var e2 := Get(mem, e1.addr, va.i2);
    if e2.present && e2.bit7 then 1 else 0
  }

  /** How many tables are missing on the way to the last-level entry of `va`. */
  function Lacking(mem: Mem, root: nat, va: Va): nat
  {
    var e0 := Get(mem, root, va.i0);
    if !e0.present then 3 else
    var e1 := Get(mem, e0.addr, va.i1);
    if !e1.present || e1.bit7 then 2 else
    var e2 := Get(mem, e1.addr, va.i2);
    if !e2.present || e2.bit7 then 1 else 0
  }

  /** A process has no large pages. */
  lemma NoSplits(mem: Mem, loc: Places, at: Tables, leaf: Places, held: Held, kernel: nat, free: set<nat>, s: nat,
                 va: Va)
    requires VmOk(mem, loc, at, leaf, held, kernel, free) && IsRoot(loc, s) && s != kernel && VaOk(va)
             && va.i0 < KERNEL_START
    ensures Splits(mem, s, va) == 0
  {
    hide VmOk;
    var e0 := Get(mem, s, va.i0);
    if e0.present && !e0.bit7 {
      WalkDown(mem, loc, at, leaf, held, kernel, free, s, 0, va);
      var e1 := Get(mem, e0.addr, va.i1);
      if e1.present {
        NotHuge(mem, loc, at, leaf, held, kernel, free, e0.addr, va.i1);
        WalkDown(mem, loc, at, leaf, held, kernel, free, e0.addr, 1, va);
        NotHuge(mem, loc, at, leaf, held, kernel, free, e1.addr, va.i2);
      }
    }
  }

  lemma NotHuge(mem: Mem, loc: Places, at: Tables, leaf: Places, held: Held, kernel: nat, free: set<nat>, t: nat,
                i: nat)
    requires VmOk(mem, loc, at, leaf, held, kernel, free) && t in loc && i < ENTRIES
             && (loc[t].path.P1? || loc[t].path.P2?)
    requires loc[t].root != kernel
    ensures Get(mem, t, i).present ==> !Get(mem, t, i).bit7
  {
    assert UserEntry(mem, loc, leaf, t, i);
  }

  /** The tables that a walk finds missing are the places that are not taken. */
  lemma LackingPlaces(mem: Mem, loc: Places, at: Tables, leaf: Places, held: Held, kernel: nat, free: set<nat>,
                      root: nat, va: Va)
    requires VmOk(mem, loc, at, leaf, held, kernel, free) && IsRoot(loc, root) && VaOk(va)
             && (root == kernel || va.i0 < KERNEL_START)
    ensures |TablePlaces(root, va) - at.Keys| == Lacking(mem, root, va)
  {
    hide VmOk;
    var p1, p2, p3 := Place(root, PathTo(va, 1)), Place(root, PathTo(va, 2)), Place(root, PathTo(va, 3));
    NotLarge(mem, loc, at, leaf, held, kernel, free, root, va.i0);
    PlaceIff(mem, loc, at, leaf, held, kernel, free, root, va.i0);
    OnlyBelow(mem, loc, at, leaf, held, kernel, free, p2);
    OnlyBelow(mem, loc, at, leaf, held, kernel, free, p3);
    CountMissing(at.Keys, root, va);
    hide TablePlaces;
    var e0 := Get(mem, root, va.i0);
    if e0.present {
      WalkDown(mem, loc, at, leaf, held, kernel, free, root, 0, va);
      PlaceIff(mem, loc, at, leaf, held, kernel, free, e0.addr, va.i1);
      var e1 := Get(mem, e0.addr, va.i1);
      if e1.present && !e1.bit7 {
        WalkDown(mem, loc, at, leaf, held, kernel, free, e0.addr, 1, va);
        PlaceIff(mem, loc, at, leaf, held, kernel, free, e1.addr, va.i2);
      }
    }
  }

  lemma LackingEnough(mem: Mem, loc: Places, at: Tables, leaf: Places, held: Held, kernel: nat, free: set<nat>,
                      root: nat, va: Va)
    requires VmOk(mem, loc, at, leaf, held, kernel, free) && IsRoot(loc, root) && VaOk(va)
             && (root == kernel || va.i0 < KERNEL_START)
    ensures Lacking(mem, root, va) <= |free| <==> Enough(TablePlaces(root, va), at, free)
  {
    hide VmOk, Lacking, TablePlaces;
    LackingPlaces(mem, loc, at, leaf, held, kernel, free, root, va);
  }

  lemma CountMissing(taken: set<Place>, root: nat, va: Va)
    ensures var p1, p2, p3 := Place(root, PathTo(va, 1)), Place(root, PathTo(va, 2)), Place(root, PathTo(va, 3));
            |TablePlaces(root, va) - taken| ==
              (if p1 in taken then 0 else 1) + (if p2 in taken then 0 else 1) + (if p3 in taken then 0 else 1)
  {
    var p1, p2, p3 := Place(root, PathTo(va, 1)), Place(root, PathTo(va, 2)), Place(root, PathTo(va, 3));
    CountOne(p3, {}, taken);
    CountOne(p2, {p3} + {}, taken);
    CountOne(p1, {p2} + ({p3} + {}), taken);
    assert TablePlaces(root, va) == {p1} + ({p2} + ({p3} + {}));
  }

  lemma CountOne(p: Place, rest: set<Place>, taken: set<Place>)
    requires p !in rest
    ensures |{p} + rest - taken| == (if p in taken then 0 else 1) + |rest - taken|
  {
    assert {p} + rest - taken == if p in taken then rest - taken else {p} + (rest - taken);
  }

  lemma OnlyBelow(mem: Mem, loc: Places, at: Tables, leaf: Places, held: Held, kernel: nat, free: set<nat>, p: Place)
    requires VmOk(mem, loc, at, leaf, held, kernel, free) && p.path != P0
    ensures p in at ==> Parent(p) in at
  {
    assert p in at ==> Hangs(mem, at, p, at[p]);
  }

  lemma GrownViews(mem: Mem, loc: Places, free: set<nat>, mem': Mem, loc': Places, free': set<nat>, at: Tables,
                   kernel: nat, t: nat, va: Va)
    requires Grown(mem, loc, free, mem', loc', free') && t in loc && VaOk(va)
    ensures t in loc' && loc'[t] == loc[t]
    ensures View(mem', Level(loc[t].path), t, va) == View(mem, Level(loc[t].path), t, va)
  {
  }

  lemma GrownFrames(mem: Mem, loc: Places, free: set<nat>, mem': Mem, loc': Places, free': set<nat>)
    requires Grown(mem, loc, free, mem', loc', free')
    ensures free' <= free && loc'.Keys == loc.Keys + (free - free') && (NoGiant(mem, loc) ==> NoGiant(mem', loc'))
  {
  }

  lemma RootIsRoot(mem: Mem, loc: Places, at: Tables, leaf: Places, held: Held, kernel: nat, free: set<nat>)
    requires VmOk(mem, loc, at, leaf, held, kernel, free)
    ensures IsRoot(loc, kernel)
  {
  }

  /** What a last-level entry says is what the page translates to. */
  lemma EntryOfPage(mem: Mem, loc: Places, at: Tables, leaf: Places, held: Held, kernel: nat, free: set<nat>, pt: nat,
                    va: Va)
    requires VmOk(mem, loc, at, leaf, held, kernel, free) && pt in loc && loc[pt].path == PathTo(va, 3)
    ensures View(mem, 0, loc[pt].root, va) ==
            if Get(mem, pt, va.i3).present then Some(LeafMapping(3, Get(mem, pt, va.i3), va)) else None
  {
    hide TablesOk, Forest;
    PlaceView(mem, loc, at, kernel, 3, pt, va);
  }

  /** A page of a process is recorded. */
  lemma UserLeaf(mem: Mem, loc: Places, at: Tables, leaf: Places, held: Held, kernel: nat, free: set<nat>, pt: nat,
                 va: Va)
    requires VmOk(mem, loc, at, leaf, held, kernel, free) && pt in loc && loc[pt].path == PathTo(va, 3) && VaOk(va)
    requires Get(mem, pt, va.i3).present
    ensures loc[pt].root != kernel ==>
              var f := Get(mem, pt, va.i3).addr;
              f in leaf && leaf[f] == Place(loc[pt].root, PathTo(va, 4)) && f !in loc
              && f !in free
  {
    hide TablesOk, Forest, HeldOk, PageThere;
    assert loc[pt].root != kernel ==> UserEntry(mem, loc, leaf, pt, va.i3);
  }

  ghost function LeafAfter(mem: Mem, loc: Places, leaf: Places, kernel: nat, pt: nat, i: nat, w: Word): Places
    requires pt in loc
  {
    if loc[pt].root == kernel then leaf else Recorded(mem, loc, leaf, pt, i, w)
  }

  lemma SameRecord(mem: Mem, loc: Places, at: Tables, leaf: Places, held: Held, kernel: nat, free: set<nat>, pt: nat,
                   va: Va, w: Word)
    requires VmOk(mem, loc, at, leaf, held, kernel, free) && pt in loc && loc[pt].path == PathTo(va, 3) && VaOk(va)
    requires Get(mem, pt, va.i3).present && w.present && w.addr == Get(mem, pt, va.i3).addr
    ensures LeafAfter(mem, loc, leaf, kernel, pt, va.i3, w) == leaf
  {
    hide VmOk;
    UserLeaf(mem, loc, at, leaf, held, kernel, free, pt, va);
  }

  /** Every space that sees a page translates it alike. */
  lemma SeesSame(mem: Mem, loc: Places, at: Tables, leaf: Places, held: Held, kernel: nat, free: set<nat>, r: nat,
                 root: nat, va: Va)
    requires VmOk(mem, loc, at, leaf, held, kernel, free) && VaOk(va) && Sees(kernel, held, r, root, va)
    ensures View(mem, 0, r, va) == View(mem, 0, root, va)
  {
  }

  /** Growth alone is the page write that writes what was there. */
  lemma SamePage(kernel: nat, loc: Places, at: Tables, leaf: Places, held: Held, free: set<nat>,
                 mem: Mem, mem': Mem, loc': Places, free': set<nat>, root: nat, va: Va)
    requires VmOk(mem, loc, at, leaf, held, kernel, free) && Grown(mem, loc, free, mem', loc', free') && VaOk(va)
    ensures OnePage(kernel, loc, held, mem, mem', root, va, View(mem, 0, root, va))
  {
    hide VmOk, Grown, View;
    GrownRoots(mem, loc, free, mem', loc', free');
    forall r, v | IsRoot(loc, r) && VaOk(v)
      ensures View(mem', 0, r, v) == if v == va && Sees(kernel, held, r, root, va) then View(mem, 0, root, va)
              else View(mem, 0, r, v)
    {
      if v == va && Sees(kernel, held, r, root, va) {
        SeesSame(mem, loc, at, leaf, held, kernel, free, r, root, va);
      }
    }
  }

  /** Writing a last-level entry: in the kernel's tables anything, in a process a frame of its own. */
  lemma WritePage(mem: Mem, loc: Places, at: Tables, leaf: Places, held: Held, kernel: nat, free: set<nat>, pt: nat,
                  w: Word, va: Va)
    requires VmOk(mem, loc, at, leaf, held, kernel, free) && pt in loc && loc[pt].path == PathTo(va, 3) && VaOk(va)
    requires loc[pt].root == kernel || !w.present ||
             (w.addr !in loc && w.addr !in free && (w.addr !in leaf
               || (Get(mem, pt, va.i3).present && w.addr == Get(mem, pt, va.i3).addr)))
    ensures var mem' := Put(mem, pt, va.i3, w);
            && VmOk(mem', loc, at, LeafAfter(mem, loc, leaf, kernel, pt, va.i3, w), held, kernel, free)
            && OnePage(kernel, loc, held, mem, mem', loc[pt].root, va, if w.present then Some(LeafMapping(3, w, va))
               else None)
  {
    hide TablesOk, UserTables, UserPages, HeldOk, Forest, OnePage, LeafMapping;
    PutTables(mem, loc, kernel, pt, va.i3, w);
    PutPage(mem, loc, at, held, kernel, pt, w, va);
    if loc[pt].root == kernel {
      PutKernel(mem, loc, at, leaf, held, kernel, pt, va.i3, w);
    } else {
      PutGet(mem, loc, kernel, pt, va.i3, w);
      PutUser(mem, loc, at, leaf, held, kernel, pt, va.i3, w);
    }
  }

  lemma FreeIsNot(mem: Mem, loc: Places, at: Tables, leaf: Places, held: Held, kernel: nat, free: set<nat>, t: nat,
                  f: nat)
    requires VmOk(mem, loc, at, leaf, held, kernel, free) && f in free
    ensures f !in loc && f !in leaf && f != kernel
  {
  }

  lemma RootZero(mem: Mem, loc: Places, at: Tables, leaf: Places, held: Held, kernel: nat, free: set<nat>, root: nat,
                 virt: nat)
    requires VmOk(mem, loc, at, leaf, held, kernel, free) && IsRoot(loc, root)
    requires Get(mem, root, PageOf(virt).i0).present ==> !Get(mem, root, PageOf(virt).i0).bit7
    ensures Walk(mem, root, virt) == AsByte(View(mem, 0, root, PageOf(virt)), virt)
  {
    hide VmOk, PageOf;
    if !Get(mem, root, PageOf(virt).i0).bit7 {
      WalkIsView(mem, root, virt);
    }
  }

  // ------------------------------------------------------------- a new space

  /** The kernel slots in use. */
  ghost function Slots(mem: Mem, kernel: nat): set<nat>
  {
    set i | KERNEL_START <= i < ENTRIES && Get(mem, kernel, i).present
  }

  /** A new space maps nothing of its own, and shares the kernel's slots of the moment. */
  ghost predicate NewViews(mem: Mem, kernel: nat, r: nat, slots: set<nat>)
  {
    forall va | VaOk(va) :: View(mem, 0, r, va) == if va.i0 in slots then View(mem, 0, kernel, va) else None
  }

  /** `mem'` is `mem` with a new root `f`. */
  ghost predicate RootAdded(mem: Mem, mem': Mem, kernel: nat, f: nat)
  {
    && f in mem' && |mem'[f]| == ENTRIES && mem' == mem[f := mem'[f]]
    && (forall j | 0 <= j < KERNEL_START :: mem'[f][j] == ZERO)
    && (forall j | KERNEL_START <= j < ENTRIES :: mem'[f][j] == Get(mem, kernel, j))
  }

  lemma AddedGet(mem: Mem, mem': Mem, kernel: nat, f: nat, x: nat, j: nat)
    requires RootAdded(mem, mem', kernel, f)
    ensures x != f ==> Get(mem', x, j) == Get(mem, x, j)
    ensures j < KERNEL_START ==> Get(mem', f, j) == ZERO
    ensures KERNEL_START <= j < ENTRIES ==> Get(mem', f, j) == Get(mem, kernel, j)
  {
  }

  lemma AddedTables(mem: Mem, mem': Mem, loc: Places, kernel: nat, f: nat)
    requires TablesOk(mem, loc, kernel) && RootAdded(mem, mem', kernel, f) && f !in loc
    ensures TablesOk(mem', loc[f := Place(f, P0)], kernel)
  {
    var loc' := loc[f := Place(f, P0)];
    assert TableOk(mem, loc, kernel, kernel);
    forall x | x in loc' ensures TableOk(mem', loc', kernel, x) {
      assert x != f ==> TableOk(mem, loc, kernel, x);
      forall j | 0 <= j < ENTRIES ensures EntryOk(mem', loc', kernel, x, j) {
        AddedGet(mem, mem', kernel, f, x, j);
        assert x != f ==> EntryOk(mem, loc, kernel, x, j);
        assert EntryOk(mem, loc, kernel, kernel, j);
      }
    }
    AddedShared(mem, mem', loc, kernel, f);
  }

  lemma AddedShared(mem: Mem, mem': Mem, loc: Places, kernel: nat, f: nat)
    requires TablesOk(mem, loc, kernel) && RootAdded(mem, mem', kernel, f) && f !in loc
    ensures SharedOk(mem', loc[f := Place(f, P0)], kernel)
  {
  }

  lemma AddedForest(mem: Mem, mem': Mem, loc: Places, at: Tables, kernel: nat, f: nat)
    requires TablesOk(mem, loc, kernel) && Forest(mem, loc, at) && RootAdded(mem, mem', kernel, f) && f !in loc
    ensures Forest(mem', loc[f := Place(f, P0)], at[Place(f, P0) := f]) && Place(f, P0) !in at
  {
  }

  lemma AddedOwned(mem: Mem, mem': Mem, loc: Places, at: Tables, leaf: Places, held: Held, kernel: nat, f: nat)
    requires TablesOk(mem, loc, kernel) && Owned(mem, loc, at, leaf, held, kernel) && RootAdded(mem, mem', kernel, f)
    requires f !in loc && f !in leaf
    ensures Owned(mem', loc[f := Place(f, P0)], at[Place(f, P0) := f], leaf, held[f := Slots(mem, kernel)], kernel)
  {
    hide RootAdded, AllHang, TablesOk;
    AddedForest(mem, mem', loc, at, kernel, f);
    var loc', at' := loc[f := Place(f, P0)], at[Place(f, P0) := f];
    forall t, i | t in loc' && loc'[t].root != kernel && loc'[t].path != P0 && 0 <= i < ENTRIES
      ensures UserEntry(mem', loc', leaf, t, i) {
      AddedGet(mem, mem', kernel, f, t, i);
      assert UserEntry(mem, loc, leaf, t, i);
    }
    forall x | x in leaf ensures x !in loc' && leaf[x].root != kernel && PageThere(mem', at', leaf[x], x) {
      assert PageThere(mem, at, leaf[x], x);
      assert at[Parent(leaf[x])] in loc;
      AddedGet(mem, mem', kernel, f, at[Parent(leaf[x])], LastIndex(leaf[x].path));
    }
    AddedHeld(mem, mem', loc, kernel, held, f);
  }

  lemma AddedHeld(mem: Mem, mem': Mem, loc: Places, kernel: nat, held: Held, f: nat)
    requires TablesOk(mem, loc, kernel) && HeldOk(mem, loc, kernel, held) && RootAdded(mem, mem', kernel, f)
             && f !in loc
    ensures HeldOk(mem', loc[f := Place(f, P0)], kernel, held[f := Slots(mem, kernel)])
  {
  }

  lemma {:induction false} AddedView(mem: Mem, mem': Mem, loc: Places, kernel: nat, f: nat, k: nat, x: nat, va: Va)
    requires TablesOk(mem, loc, kernel) && RootAdded(mem, mem', kernel, f) && f !in loc
    requires VaOk(va) && x in loc && Level(loc[x].path) == k && k <= 3
    ensures View(mem', k, x, va) == View(mem, k, x, va)
    decreases 3 - k
  {
    hide RootAdded;
    AddedGet(mem, mem', kernel, f, x, Ix(va, k));
    if IsTable(k, Get(mem, x, Ix(va, k))) {
      ChildInPlace(mem, loc, kernel, x, k, va);
      AddedView(mem, mem', loc, kernel, f, k + 1, Get(mem, x, Ix(va, k)).addr, va);
    }
  }

  lemma AddedViews(mem: Mem, mem': Mem, loc: Places, kernel: nat, f: nat)
    requires TablesOk(mem, loc, kernel) && RootAdded(mem, mem', kernel, f) && f !in loc
    ensures SameViews(mem, loc, mem', loc[f := Place(f, P0)]) && NewViews(mem', kernel, f, Slots(mem, kernel))
  {
    hide RootAdded;
    forall x, va | x in loc && VaOk(va) ensures View(mem', Level(loc[x].path), x, va)
      == View(mem, Level(loc[x].path), x, va) {
      assert TableOk(mem, loc, kernel, x);
      AddedView(mem, mem', loc, kernel, f, Level(loc[x].path), x, va);
    }
    forall va | VaOk(va)
      ensures View(mem', 0, f, va) == if va.i0 in Slots(mem, kernel) then View(mem', 0, kernel, va) else None
    {
      AddedGet(mem, mem', kernel, f, f, va.i0);
      AddedGet(mem, mem', kernel, f, kernel, va.i0);
    }
  }

  lemma NewRoot(mem: Mem, mem': Mem, loc: Places, at: Tables, leaf: Places, held: Held, kernel: nat, free: set<nat>,
                f: nat)
    requires VmOk(mem, loc, at, leaf, held, kernel, free) && f in free && RootAdded(mem, mem', kernel, f)
    ensures VmOk(mem', loc[f := Place(f, P0)], at[Place(f, P0) := f], leaf, held[f := Slots(mem, kernel)], kernel,
            free - {f})
    ensures SameViews(mem, loc, mem', loc[f := Place(f, P0)]) && NewViews(mem', kernel, f, Slots(mem, kernel))
  {
    hide RootAdded, TablesOk, Owned, SameViews, NewViews;
    AddedTables(mem, mem', loc, kernel, f);
    AddedOwned(mem, mem', loc, at, leaf, held, kernel, f);
    AddedViews(mem, mem', loc, kernel, f);
  }

  lemma SpaceIsRoot(mem: Mem, loc: Places, at: Tables, leaf: Places, held: Held, kernel: nat, free: set<nat>, s: nat)
    requires VmOk(mem, loc, at, leaf, held, kernel, free) && s in held
    ensures IsRoot(loc, s) && s != kernel
  {
  }

  lemma TakeFrame(mem: Mem, loc: Places, at: Tables, leaf: Places, held: Held, kernel: nat, free: set<nat>, f: nat)
    requires VmOk(mem, loc, at, leaf, held, kernel, free) && f in free
    ensures VmOk(mem, loc, at, leaf, held, kernel, free - {f}) && f !in loc && f !in leaf
  {
  }

  /** A page of a process is no table and not free. */
  lemma Unowned(mem: Mem, loc: Places, at: Tables, leaf: Places, held: Held, kernel: nat, free: set<nat>, f: nat)
    requires VmOk(mem, loc, at, leaf, held, kernel, free) && f in leaf
    ensures f !in loc && f !in free
  {
  }

  lemma ReturnFrame(mem: Mem, loc: Places, at: Tables, leaf: Places, held: Held, kernel: nat, free: set<nat>, f: nat)
    requires VmOk(mem, loc, at, leaf, held, kernel, free) && f !in loc && f !in leaf
    ensures VmOk(mem, loc, at, leaf, held, kernel, free + {f})
  {
  }

  // ------------------------------------------------------------- large pages

  /** A 2 MiB leaf of 2 MiB-aligned frame `base`. */
  function LargeWord(base: nat, a: Attrs): Word
  {
    Word(true, a.writable, a.user, a.pwt, a.pcd, a.accessed, a.dirty, true, a.low, base / 0x200 * 0x200, a.high, a.nx)
  }

  lemma LargeWordMeans(base: nat, a: Attrs, va: Va)
    requires base % 0x200 == 0 && !a.pat
    ensures IsLeaf(2, LargeWord(base, a)) && LeafMapping(2, LargeWord(base, a), va) == Mapping(base + va.i3, a)
  {
  }

  predicate SameBlock(v: Va, va: Va) { v.i0 == va.i0 && v.i1 == va.i1 && v.i2 == va.i2 }

  /** Exactly the 512 pages of `va`'s block now translate to the frames from `base` on. */
  ghost predicate OneBlock(kernel: nat, loc: Places, held: Held, mem: Mem, mem': Mem, va: Va, base: nat, flags: Attrs)
  {
    forall r, v | IsRoot(loc, r) && VaOk(v) ::
      View(mem', 0, r, v) == if SameBlock(v, va) && Sees(kernel, held, r, kernel,
        v) then Some(Mapping(base + v.i3, flags)) else View(mem, 0, r, v)
  }

  lemma OneBlockAfter(kernel: nat, loc: Places, free: set<nat>, loc': Places, free': set<nat>, held: Held,
                      mem: Mem, mem1: Mem, mem2: Mem, va: Va, base: nat, flags: Attrs)
    requires Grown(mem, loc, free, mem1, loc', free') && OneBlock(kernel, loc', held, mem1, mem2, va, base, flags)
    ensures OneBlock(kernel, loc, held, mem, mem2, va, base, flags)
  {
  }

  lemma PutGiant(mem: Mem, loc: Places, t: nat, i: nat, w: Word)
    requires t in loc && !loc[t].path.P1?
    ensures NoGiant(mem, loc) ==> NoGiant(Put(mem, t, i, w), loc)
  {
    forall x, j | NoGiant(mem, loc) && x in loc && loc[x].path.P1? && 0 <= j < ENTRIES
      ensures !IsLeaf(1, Get(Put(mem, t, i, w), x, j)) {
      assert Get(Put(mem, t, i, w), x, j) == Get(mem, x, j);
    }
  }

  lemma NotGiant(mem: Mem, loc: Places, t: nat, i: nat)
    requires NoGiant(mem, loc) && t in loc && loc[t].path.P1? && i < ENTRIES
    ensures !IsLeaf(1, Get(mem, t, i))
  {
  }

  /** Coming to a page directory makes no page table. */
  lemma NotThere(root: nat, va: Va)
    ensures Place(root, PathTo(va, 3)) !in DirPlaces(root, va)
  {
  }

  lemma NoPageTable(mem: Mem, loc: Places, at: Tables, leaf: Places, held: Held, kernel: nat, free: set<nat>, pd: nat,
                    va: Va)
    requires VmOk(mem, loc, at, leaf, held, kernel, free) && pd in loc && loc[pd] == Place(kernel, PathTo(va, 2))
             && VaOk(va)
    requires Place(kernel, PathTo(va, 3)) !in at
    ensures !IsTable(2, Get(mem, pd, va.i2))
  {
    assert TableOk(mem, loc, kernel, pd);
    assert EntryOk(mem, loc, kernel, pd, va.i2);
  }

  lemma WriteBlock(mem: Mem, loc: Places, at: Tables, leaf: Places, held: Held, kernel: nat, free: set<nat>, pd: nat,
                   va: Va, base: nat, flags: Attrs)
    requires VmOk(mem, loc, at, leaf, held, kernel, free) && pd in loc && loc[pd] == Place(kernel, PathTo(va, 2))
             && VaOk(va)
    requires !IsTable(2, Get(mem, pd, va.i2)) && base % 0x200 == 0 && !flags.pat
    ensures var mem' := Put(mem, pd, va.i2, LargeWord(base, flags));
            VmOk(mem', loc, at, leaf, held, kernel, free) && OneBlock(kernel, loc, held, mem, mem', va, base, flags)
  {
    hide TablesOk, UserTables, UserPages, HeldOk, Forest, LeafMapping, OnlyEntry, LargeWord;
    var w := LargeWord(base, flags);
    var mem' := Put(mem, pd, va.i2, w);
    LargeWordMeans(base, flags, va);
    PutTables(mem, loc, kernel, pd, va.i2, w);
    PutKernel(mem, loc, at, leaf, held, kernel, pd, va.i2, w);
    PutGet(mem, loc, kernel, pd, va.i2, w);
    forall r, v | IsRoot(loc, r) && VaOk(v)
      ensures View(mem', 0, r, v) == if SameBlock(v, va) && Sees(kernel, held, r, kernel,
              v) then Some(Mapping(base + v.i3, flags)) else View(mem, 0, r, v)
    {
      PutView(mem, loc, at, held, kernel, pd, va.i2, w, r, v);
      LargeWordMeans(base, flags, v);
      assert SameBlock(v, va) ==> View(mem', 2, pd, v) == Some(Mapping(base + v.i3, flags));
      assert Hits(loc, pd, va.i2, kernel, v) <==> SameBlock(v, va);
    }
  }
}
