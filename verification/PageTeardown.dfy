/** The frames of one process, laid out along the indices that lead to them. */
module PageTeardown {
  import opened Wrappers
  import opened PageEntries
  import opened PageTables
  import opened PageOwners
  import opened PageSteps

  /** Index number `k` of a path. */
  function At(p: Path, k: nat): nat
  {
    match p
    case P0 => 0
    case P1(a) => a
    case P2(a, b) => if k == 0 then a else b
    case P3(a, b, c) => if k == 0 then a else if k == 1 then b else c
    case P4(a, b, c, d) => if k == 0 then a else if k == 1 then b else if k == 2 then c else d
  }

  /** `q` lies at or below `p`. */
  predicate Below(p: Place, q: Place)
  {
    && p.root == q.root && Level(p.path) <= Level(q.path)
    && (Level(p.path) > 0 ==> At(p.path, 0) == At(q.path, 0))
    && (Level(p.path) > 1 ==> At(p.path, 1) == At(q.path, 1))
    && (Level(p.path) > 2 ==> At(p.path, 2) == At(q.path, 2))
    && (Level(p.path) > 3 ==> At(p.path, 3) == At(q.path, 3))
  }

  ghost function PlaceOf(loc: Places, leaf: Places, f: nat): Place
    requires f in loc || f in leaf
  {
    if f in loc then loc[f] else leaf[f]
  }

  /** The tables and pages at or below a place. */
  ghost function Under(loc: Places, leaf: Places, p: Place): set<nat>
  {
    set f | f in loc.Keys + leaf.Keys && Below(p, PlaceOf(loc, leaf, f))
  }

  /** Those strictly below, through the first `n` entries. */
  ghost function UnderBefore(loc: Places, leaf: Places, p: Place, n: nat): set<nat>
  {
    set f | f in loc.Keys + leaf.Keys && Below(p, PlaceOf(loc, leaf, f))
            && Level(PlaceOf(loc, leaf, f).path) > Level(p.path) && At(PlaceOf(loc, leaf, f).path, Level(p.path)) < n
  }

  lemma UnderNext(loc: Places, leaf: Places, p: Place, i: nat)
    requires Level(p.path) < 4
    ensures var c := Place(p.root, Child(p.path, i));
            && UnderBefore(loc, leaf, p, i + 1) == UnderBefore(loc, leaf, p, i) + Under(loc, leaf, c)
            && UnderBefore(loc, leaf, p, i) !! Under(loc, leaf, c)
            && Under(loc, leaf, c) <= Under(loc, leaf, p)
  {
  }

  lemma UnderNone(loc: Places, leaf: Places, p: Place)
    ensures UnderBefore(loc, leaf, p, 0) == {}
  {
  }

  lemma AtBound(p: Path, k: nat)
    requires PathOk(p) && k < Level(p)
    ensures At(p, k) < ENTRIES
  {
  }

  lemma SamePlace(p: Place, q: Place)
    requires Below(p, q) && Level(p.path) == Level(q.path)
    ensures p == q
  {
  }

  lemma PlaceOk(mem: Mem, loc: Places, at: Tables, leaf: Places, held: Held, kernel: nat, f: nat)
    requires Owned(mem, loc, at, leaf, held, kernel) && (f in loc || f in leaf)
    ensures PathOk(PlaceOf(loc, leaf, f).path)
    ensures f in leaf ==> f !in loc
  {
  }

  /** All of it, once every entry has been visited. */
  lemma UnderAll(mem: Mem, loc: Places, at: Tables, leaf: Places, held: Held, kernel: nat, t: nat)
    requires Owned(mem, loc, at, leaf, held, kernel) && t in loc && Level(loc[t].path) < 4
    ensures Under(loc, leaf, loc[t]) == UnderBefore(loc, leaf, loc[t], ENTRIES) + {t}
    ensures t !in UnderBefore(loc, leaf, loc[t], ENTRIES)
  {
    hide Below, Level, At;
    var p := loc[t];
    assert Below(p, p) by { SelfBelow(p); }
    forall f | f in Under(loc, leaf, p) ensures f in UnderBefore(loc, leaf, p, ENTRIES) + {t} {
      UnderOne(mem, loc, at, leaf, held, kernel, t, f);
    }
  }

  lemma SelfBelow(p: Place)
    ensures Below(p, p)
  {
  }

  lemma UnderOne(mem: Mem, loc: Places, at: Tables, leaf: Places, held: Held, kernel: nat, t: nat, f: nat)
    requires Owned(mem, loc, at, leaf, held, kernel) && t in loc && Level(loc[t].path) < 4
             && f in Under(loc, leaf, loc[t])
    ensures f == t || f in UnderBefore(loc, leaf, loc[t], ENTRIES)
  {
    hide Below, At, PathOk;
    var p, q := loc[t], PlaceOf(loc, leaf, f);
    assert Level(p.path) <= Level(q.path) by { LevelBelow(p, q); }
    PlaceOk(mem, loc, at, leaf, held, kernel, f);
    if Level(q.path) == Level(p.path) {
      SamePlace(p, q);
      TableOfPlace(mem, loc, at, leaf, held, kernel, t, f);
    } else {
      AtBound(q.path, Level(p.path));
    }
  }

  lemma LevelBelow(p: Place, q: Place)
    requires Below(p, q)
    ensures Level(p.path) <= Level(q.path)
  {
  }

  lemma TableOfPlace(mem: Mem, loc: Places, at: Tables, leaf: Places, held: Held, kernel: nat, t: nat, f: nat)
    requires Owned(mem, loc, at, leaf, held, kernel) && t in loc && Level(loc[t].path) < 4
    requires (f in loc || f in leaf) && PlaceOf(loc, leaf, f) == loc[t]
    ensures f == t
  {
  }

  // -------------------------------------------------------- behind one entry

  /** Whatever lies at or below a table's place hangs from a present entry. */
  lemma {:induction false} Ancestor(mem: Mem, loc: Places, at: Tables, leaf: Places, held: Held, kernel: nat, p: Place,
                                    q: Place)
    requires Owned(mem, loc, at, leaf, held, kernel) && Below(p, q) && Level(q.path) <= 3 && q in at
    ensures p in at
    decreases Level(q.path)
  {
  }

  lemma ParentBelow(p: Place, q: Place)
    requires Below(p, q) && Level(p.path) < Level(q.path)
    ensures Below(p, Parent(q)) && Level(Parent(q).path) == Level(q.path) - 1
  {
  }

  /** A table under an entry's place hangs from that entry. */
  lemma TableUnder(mem: Mem, loc: Places, at: Tables, leaf: Places, held: Held, kernel: nat, t: nat, i: nat, q: Place)
    requires Owned(mem, loc, at, leaf, held, kernel) && t in loc && Level(loc[t].path) < 3
    requires Below(Place(loc[t].root, Child(loc[t].path, i)), q) && Level(q.path) <= 3 && q in at
    ensures Get(mem, t, i).present
  {
    hide Below, UserTables, UserPages, HeldOk;
    var c := Place(loc[t].root, Child(loc[t].path, i));
    ParentOfChild(loc[t], i);
    Ancestor(mem, loc, at, leaf, held, kernel, c, q);
    assert at[loc[t]] == t;
    assert Hangs(mem, at, c, at[c]);
  }

  /** A page under an entry's place hangs from that entry. */
  lemma PageUnder(mem: Mem, loc: Places, at: Tables, leaf: Places, held: Held, kernel: nat, t: nat, i: nat, f: nat)
    requires Owned(mem, loc, at, leaf, held, kernel) && t in loc && Level(loc[t].path) <= 3 && f in leaf
    requires Below(Place(loc[t].root, Child(loc[t].path, i)), leaf[f])
    ensures Get(mem, t, i).present && (loc[t].path.P3? ==> Get(mem, t, i).addr == f)
  {
    hide Below, UserTables, HeldOk, AllHang;
    var c := Place(loc[t].root, Child(loc[t].path, i));
    ParentOfChild(loc[t], i);
    assert PageThere(mem, at, leaf[f], f);
    assert at[loc[t]] == t;
    if loc[t].path.P3? {
      SamePlace(c, leaf[f]);
    } else {
      ParentBelow(c, leaf[f]);
      TableUnder(mem, loc, at, leaf, held, kernel, t, i, Parent(leaf[f]));
    }
  }

  lemma FrameUnder(mem: Mem, loc: Places, at: Tables, leaf: Places, held: Held, kernel: nat, t: nat, i: nat, f: nat)
    requires TablesOk(mem, loc, kernel) && Owned(mem, loc, at, leaf, held, kernel) && t in loc
             && (f in loc || f in leaf)
    requires Level(loc[t].path) <= 3 && Below(Place(loc[t].root, Child(loc[t].path, i)), PlaceOf(loc, leaf, f))
    ensures Get(mem, t, i).present && (loc[t].path.P3? ==> f !in loc && Get(mem, t, i).addr == f)
  {
    hide Below, UserTables, UserPages, HeldOk, AllHang;
    assert f in loc ==> TableOk(mem, loc, kernel, f);
    ParentOfChild(loc[t], i);
    LevelBelow(Place(loc[t].root, Child(loc[t].path, i)), PlaceOf(loc, leaf, f));
    if f in loc {
      TableUnder(mem, loc, at, leaf, held, kernel, t, i, loc[f]);
    } else {
      PageUnder(mem, loc, at, leaf, held, kernel, t, i, f);
    }
  }

  /** Nothing lies behind an absent entry. */
  lemma AbsentEntry(mem: Mem, loc: Places, at: Tables, leaf: Places, held: Held, kernel: nat, t: nat, i: nat)
    requires TablesOk(mem, loc, kernel) && Owned(mem, loc, at, leaf, held, kernel) && t in loc
             && !Get(mem, t, i).present
    ensures Under(loc, leaf, Place(loc[t].root, Child(loc[t].path, i))) == {}
  {
    hide Below, Owned;
    var c := Place(loc[t].root, Child(loc[t].path, i));
    assert TableOk(mem, loc, kernel, t);
    forall f | f in loc.Keys + leaf.Keys ensures !Below(c, PlaceOf(loc, leaf, f)) {
      if Below(c, PlaceOf(loc, leaf, f)) {
        FrameUnder(mem, loc, at, leaf, held, kernel, t, i, f);
        assert false;
      }
    }
  }

  /** Behind a page entry of a process lies exactly its page. */
  lemma PageEntry(mem: Mem, loc: Places, at: Tables, leaf: Places, held: Held, kernel: nat, t: nat, i: nat)
    requires TablesOk(mem, loc, kernel) && Owned(mem, loc, at, leaf, held, kernel) && t in loc && i < ENTRIES
    requires loc[t].path.P3? && loc[t].root != kernel && Get(mem, t, i).present
    ensures var f := Get(mem, t, i).addr;
            Under(loc, leaf, Place(loc[t].root, Child(loc[t].path, i))) == {f} && f in leaf && f !in loc
  {
    hide Below, Forest, HeldOk, PageThere, TablesOk;
    var c := Place(loc[t].root, Child(loc[t].path, i));
    var g := Get(mem, t, i).addr;
    assert UserEntry(mem, loc, leaf, t, i);
    assert g in leaf && g !in loc && leaf[g] == c;
    SelfBelow(c);
    forall f | f in loc.Keys + leaf.Keys && Below(c, PlaceOf(loc, leaf, f)) ensures f == g {
      FrameUnder(mem, loc, at, leaf, held, kernel, t, i, f);
    }
  }

  /** Behind a table entry of a process lies what is under that table. */
  lemma TableEntry(mem: Mem, loc: Places, at: Tables, leaf: Places, held: Held, kernel: nat, t: nat, i: nat)
    requires TablesOk(mem, loc, kernel) && Owned(mem, loc, at, leaf, held, kernel) && t in loc && i < ENTRIES
    requires Level(loc[t].path) < 3 && loc[t].root != kernel && Get(mem, t, i).present
             && (loc[t].path == P0 ==> i < KERNEL_START)
    ensures var w := Get(mem, t, i);
            !w.bit7 && w.addr in loc && loc[w.addr] == Place(loc[t].root, Child(loc[t].path, i))
  {
    hide Forest, HeldOk, UserPages;
    assert TableOk(mem, loc, kernel, t);
    assert EntryOk(mem, loc, kernel, t, i);
    assert loc[t].path != P0 ==> UserEntry(mem, loc, leaf, t, i);
  }

  /** A process owns nothing in the kernel half. */
  lemma KernelHalfEmpty(mem: Mem, loc: Places, at: Tables, leaf: Places, held: Held, kernel: nat, s: nat)
    requires TablesOk(mem, loc, kernel) && Owned(mem, loc, at, leaf, held, kernel) && s in held
    ensures UnderBefore(loc, leaf, Place(s, P0), ENTRIES) == UnderBefore(loc, leaf, Place(s, P0), KERNEL_START)
  {
    hide TablesOk, Owned, Below;
    forall f | f in UnderBefore(loc, leaf, Place(s, P0), ENTRIES)
      ensures f in UnderBefore(loc, leaf, Place(s, P0), KERNEL_START) {
      FirstBelow(mem, loc, at, leaf, held, kernel, s, f);
    }
  }

  lemma FirstBelow(mem: Mem, loc: Places, at: Tables, leaf: Places, held: Held, kernel: nat, s: nat, f: nat)
    requires TablesOk(mem, loc, kernel) && Owned(mem, loc, at, leaf, held, kernel) && s in held
    requires f in UnderBefore(loc, leaf, Place(s, P0), ENTRIES)
    ensures At(PlaceOf(loc, leaf, f).path, 0) < KERNEL_START
  {
    hide TablesOk, UserTables, AllHang;
    assert s != kernel;
    if f in loc {
      UserHalf(mem, loc, at, kernel, f);
    } else {
      assert PageThere(mem, at, leaf[f], f);
      assert loc[at[Parent(leaf[f])]] == Parent(leaf[f]);
      UserHalf(mem, loc, at, kernel, at[Parent(leaf[f])]);
    }
  }

  // ----------------------------------------------------------------- removal

  /** The places that do not belong to root `s`. */
  ghost function Others(loc: Places, s: nat): Places { map t | t in loc && loc[t].root != s :: loc[t] }

  ghost function OtherTables(at: Tables, s: nat): Tables { map p | p in at && p.root != s :: at[p] }

  /** The frames that belong to root `s`. */
  ghost function FramesOf(loc: Places, leaf: Places, s: nat): set<nat>
  {
    (set t | t in loc && loc[t].root == s) + (set f | f in leaf && leaf[f].root == s)
  }

  lemma UnderRoot(mem: Mem, loc: Places, at: Tables, leaf: Places, held: Held, kernel: nat, s: nat)
    requires Owned(mem, loc, at, leaf, held, kernel)
    ensures Under(loc, leaf, Place(s, P0)) == FramesOf(loc, leaf, s)
  {
  }

  lemma OthersTables(mem: Mem, loc: Places, kernel: nat, s: nat)
    requires TablesOk(mem, loc, kernel) && s != kernel
    ensures TablesOk(mem, Others(loc, s), kernel)
  {
    var loc' := Others(loc, s);
    forall t | t in loc' ensures TableOk(mem, loc', kernel, t) {
      assert TableOk(mem, loc, kernel, t);
      forall i | 0 <= i < ENTRIES ensures EntryOk(mem, loc', kernel, t, i) {
        assert EntryOk(mem, loc, kernel, t, i);
      }
    }
  }

  lemma OthersForest(mem: Mem, loc: Places, at: Tables, s: nat)
    requires Forest(mem, loc, at)
    ensures Forest(mem, Others(loc, s), OtherTables(at, s))
  {
  }

  lemma OthersOwned(mem: Mem, loc: Places, at: Tables, leaf: Places, held: Held, kernel: nat, s: nat)
    requires TablesOk(mem, loc, kernel) && Owned(mem, loc, at, leaf, held, kernel) && s != kernel
    ensures Owned(mem, Others(loc, s), OtherTables(at, s), Others(leaf, s), held - {s}, kernel)
  {
    hide TablesOk, Forest;
    OthersForest(mem, loc, at, s);
    var loc', leaf' := Others(loc, s), Others(leaf, s);
    forall t, i | t in loc' && loc'[t].root != kernel && loc'[t].path != P0 && 0 <= i < ENTRIES
      ensures UserEntry(mem, loc', leaf', t, i) {
      assert UserEntry(mem, loc, leaf, t, i);
    }
    forall f | f in leaf' ensures f !in loc' && leaf'[f].root != kernel
      && PageThere(mem, OtherTables(at, s), leaf'[f], f) {
      assert PageThere(mem, at, leaf[f], f);
    }
    OthersHeld(mem, loc, kernel, held, s);
  }

  lemma OthersHeld(mem: Mem, loc: Places, kernel: nat, held: Held, s: nat)
    requires HeldOk(mem, loc, kernel, held) && s != kernel
    ensures HeldOk(mem, Others(loc, s), kernel, held - {s})
  {
  }

  /** Removing a process leaves a well-formed memory, its frames free, all other spaces as they were. */
  lemma OthersVm(mem: Mem, loc: Places, at: Tables, leaf: Places, held: Held, kernel: nat, free: set<nat>, s: nat)
    requires VmOk(mem, loc, at, leaf, held, kernel, free) && s in held
    ensures VmOk(mem, Others(loc, s), OtherTables(at, s), Others(leaf, s), held - {s}, kernel,
            free + FramesOf(loc, leaf, s))
  {
    hide TablesOk, Forest, UserTables;
    assert s != kernel;
    OthersTables(mem, loc, kernel, s);
    OthersOwned(mem, loc, at, leaf, held, kernel, s);
  }
}
