/** Who owns which frame: every table hangs under one entry of its parent, every page mapped into the user
    half of a process hangs under one entry of its last-level table. */
module PageOwners {
  import opened Wrappers
  import opened PageEntries
  import opened PageTables

  /** Inverse of the place map: the table at a place. */
  type Tables = map<Place, nat>

  function Parent(p: Place): Place
  {
    match p.path
    case P0 => p
    case P1(_) => Place(p.root, P0)
    case P2(a, _) => Place(p.root, P1(a))
    case P3(a, b, _) => Place(p.root, P2(a, b))
    case P4(a, b, c, _) => Place(p.root, P3(a, b, c))
  }

  function LastIndex(p: Path): nat
  {
    match p case P0 => 0 case P1(a) => a case P2(_, b) => b case P3(_, _, c) => c case P4(_, _, _, d) => d
  }

  predicate PathOk(p: Path)
  {
    match p
    case P0 => true
    case P1(a) => a < ENTRIES
    case P2(a, b) => a < ENTRIES && b < ENTRIES
    case P3(a, b, c) => a < ENTRIES && b < ENTRIES && c < ENTRIES
    case P4(a, b, c, d) => a < ENTRIES && b < ENTRIES && c < ENTRIES && d < ENTRIES
  }

  lemma ParentOfChild(p: Place, i: nat)
    requires Level(p.path) < 4
    ensures var c := Place(p.root, Child(p.path, i));
            c.path != P0 && Parent(c) == p && LastIndex(c.path) == i && Level(c.path) == Level(p.path) + 1
  {
  }

  // -------------------------------------------------------------- the forest

  /** A table other than a root is the one its parent's entry points to, and that entry is open to users and
      to writing, so that the entry of a page alone decides. */
  ghost predicate Hangs(mem: Mem, at: Tables, p: Place, t: nat)
  {
    Parent(p) in at &&
    var w := Get(mem, at[Parent(p)], LastIndex(p.path));
    IsTable(Level(Parent(p).path), w) && w.addr == t && w.user && w.writable
  }

  ghost predicate Inverse(loc: Places, at: Tables)
  {
    && (forall t | t in loc :: loc[t] in at && at[loc[t]] == t)
    && (forall p | p in at :: at[p] in loc && loc[at[p]] == p)
  }

  ghost predicate AllHang(mem: Mem, loc: Places, at: Tables)
  {
    forall t | t in loc && loc[t].path != P0 :: PathOk(loc[t].path) && Hangs(mem, at, loc[t], t)
  }

  ghost predicate Forest(mem: Mem, loc: Places, at: Tables) { Inverse(loc, at) && AllHang(mem, loc, at) }

  // --------------------------------------------------------------- ownership

  /** In the user half of a process there are no large pages, and a 4 KiB page is recorded as owned. */
  ghost predicate UserEntry(mem: Mem, loc: Places, leaf: Places, t: nat, i: nat)
    requires t in loc
  {
    var w := Get(mem, t, i);
    w.present ==>
      && (Level(loc[t].path) < 3 ==> !w.bit7)
      && (loc[t].path.P3? ==> w.addr in leaf && leaf[w.addr] == Place(loc[t].root, Child(loc[t].path, i)))
  }

  ghost predicate UserTables(mem: Mem, loc: Places, leaf: Places, kernel: nat)
  {
    forall t, i | t in loc && loc[t].root != kernel && loc[t].path != P0 && 0 <= i < ENTRIES ::
      UserEntry(mem, loc, leaf, t, i)
  }

  /** A recorded page is mapped where the record says. */
  ghost predicate PageThere(mem: Mem, at: Tables, p: Place, f: nat)
  {
    && p.path.P4? && PathOk(p.path) && Parent(p) in at
    && Get(mem, at[Parent(p)], LastIndex(p.path)).present && Get(mem, at[Parent(p)], LastIndex(p.path)).addr == f
  }

  ghost predicate UserPages(mem: Mem, loc: Places, at: Tables, leaf: Places, kernel: nat)
  {
    forall f | f in leaf :: f !in loc && leaf[f].root != kernel && PageThere(mem, at, leaf[f], f)
  }

  /** `held[r]`: the kernel slots that the root of process `r` shares. */
  ghost predicate HeldOk(mem: Mem, loc: Places, kernel: nat, held: map<nat, set<nat>>)
  {
    && (forall r :: r in held <==> IsRoot(loc, r) && r != kernel)
    && (forall r, i | r in held && KERNEL_START <= i < ENTRIES :: i in held[r] <==> Get(mem, r, i).present)
  }

  ghost predicate Owned(mem: Mem, loc: Places, at: Tables, leaf: Places, held: map<nat, set<nat>>, kernel: nat)
  {
    && Forest(mem, loc, at)
    && UserTables(mem, loc, leaf, kernel)
    && UserPages(mem, loc, at, leaf, kernel)
    && HeldOk(mem, loc, kernel, held)
  }

  // ------------------------------------------------------------- a new table

  lemma HungForest(mem: Mem, mem': Mem, loc: Places, at: Tables, kernel: nat, t: nat, i: nat, f: nat, words: seq<Word>)
    requires TablesOk(mem, loc, kernel) && Forest(mem, loc, at) && t in loc && f !in loc && i < ENTRIES
             && Level(loc[t].path) < 3
    requires Hung(mem, mem', t, i, f, words) && !IsTable(Level(loc[t].path), Get(mem, t, i))
    ensures var p := Place(loc[t].root, Child(loc[t].path, i)); p !in at && Forest(mem', loc[f := p], at[p := f])
  {
    hide TablesOk, IsTable;
    var p := Place(loc[t].root, Child(loc[t].path, i));
    ParentOfChild(loc[t], i);
    assert p !in at by {
      assert p in at ==> Hangs(mem, at, p, at[p]);
      assert at[loc[t]] == t;
    }
    var loc', at' := loc[f := p], at[p := f];
    assert Inverse(loc', at');
    forall x | x in loc' && loc'[x].path != P0 ensures PathOk(loc'[x].path) && Hangs(mem', at', loc'[x], x) {
      HungHangs(mem, mem', loc, at, t, i, f, words, x);
    }
  }

  lemma HungHangs(mem: Mem, mem': Mem, loc: Places, at: Tables, t: nat, i: nat, f: nat, words: seq<Word>, x: nat)
    requires Forest(mem, loc, at) && t in loc && f !in loc && i < ENTRIES && Level(loc[t].path) < 3
    requires Hung(mem, mem', t, i, f, words) && !IsTable(Level(loc[t].path), Get(mem, t, i))
    requires Place(loc[t].root, Child(loc[t].path, i)) !in at && (x == f || (x in loc && loc[x].path != P0))
    ensures var p := Place(loc[t].root, Child(loc[t].path, i));
            PathOk(loc[f := p][x].path) && Hangs(mem', at[p := f], loc[f := p][x], x)
  {
    ParentOfChild(loc[t], i);
    HungGet(mem, mem', t, i, f, words, t, i);
    if x != f {
      assert Hangs(mem, at, loc[x], x);
      var q, j := at[Parent(loc[x])], LastIndex(loc[x].path);
      assert q in loc && loc[q] == Parent(loc[x]);
      HungGet(mem, mem', t, i, f, words, q, j);
    }
  }

  lemma HungUserTables(mem: Mem, mem': Mem, loc: Places, leaf: Places, kernel: nat, t: nat, i: nat, f: nat,
                       words: seq<Word>, p: Place)
    requires UserTables(mem, loc, leaf, kernel) && t in loc && f !in loc && i < ENTRIES && Level(loc[t].path) < 3
    requires Hung(mem, mem', t, i, f, words) && p.root == loc[t].root && (p.root == kernel || words == Zeroed())
    ensures UserTables(mem', loc[f := p], leaf, kernel)
  {
    var loc' := loc[f := p];
    forall x, j | x in loc' && loc'[x].root != kernel && loc'[x].path != P0 && 0 <= j < ENTRIES
      ensures UserEntry(mem', loc', leaf, x, j) {
      HungGet(mem, mem', t, i, f, words, x, j);
      assert x != f ==> UserEntry(mem, loc, leaf, x, j);
    }
  }

  lemma HungUserPages(mem: Mem, mem': Mem, loc: Places, at: Tables, leaf: Places, kernel: nat, t: nat, i: nat, f: nat,
                      words: seq<Word>, p: Place)
    requires UserPages(mem, loc, at, leaf, kernel) && Inverse(loc, at) && t in loc && f !in loc && f !in leaf
             && Level(loc[t].path) < 3
    requires Hung(mem, mem', t, i, f, words) && p !in at
    ensures UserPages(mem', loc[f := p], at[p := f], leaf, kernel)
  {
  }

  lemma HungHeld(mem: Mem, mem': Mem, loc: Places, kernel: nat, held: map<nat, set<nat>>, t: nat, i: nat, f: nat,
                 words: seq<Word>)
    requires TablesOk(mem, loc, kernel) && HeldOk(mem, loc, kernel, held) && t in loc && f !in loc
             && Level(loc[t].path) < 3
    requires Hung(mem, mem', t, i, f, words) && (loc[t].root == kernel || loc[t].path != P0 || i < KERNEL_START)
    ensures HeldOk(mem', loc[f := Place(loc[t].root, Child(loc[t].path, i))], kernel, held)
  {
  }

  lemma HungOwned(mem: Mem, mem': Mem, loc: Places, at: Tables, leaf: Places, held: map<nat, set<nat>>, kernel: nat,
                  t: nat, i: nat, f: nat, words: seq<Word>)
    requires TablesOk(mem, loc, kernel) && Owned(mem, loc, at, leaf, held, kernel)
    requires t in loc && f !in loc && f !in leaf && i < ENTRIES && Level(loc[t].path) < 3
    requires Hung(mem, mem', t, i, f, words) && !IsTable(Level(loc[t].path), Get(mem, t, i))
    requires loc[t].root == kernel || words == Zeroed()
    requires loc[t].root == kernel || loc[t].path != P0 || i < KERNEL_START
    ensures var p := Place(loc[t].root, Child(loc[t].path, i)); Owned(mem', loc[f := p], at[p := f], leaf, held, kernel)
  {
    hide TablesOk, UserTables, UserPages, HeldOk, Hung, Inverse, AllHang;
    var p := Place(loc[t].root, Child(loc[t].path, i));
    HungForest(mem, mem', loc, at, kernel, t, i, f, words);
    HungUserTables(mem, mem', loc, leaf, kernel, t, i, f, words, p);
    HungUserPages(mem, mem', loc, at, leaf, kernel, t, i, f, words, p);
    HungHeld(mem, mem', loc, kernel, held, t, i, f, words);
  }

  // ------------------------------------------------------------ a leaf write

  lemma PutForest(mem: Mem, loc: Places, at: Tables, t: nat, i: nat, w: Word)
    requires Forest(mem, loc, at) && t in loc && !IsTable(Level(loc[t].path), Get(mem, t, i))
    ensures Forest(Put(mem, t, i, w), loc, at)
  {
  }

  lemma PutHeld(mem: Mem, loc: Places, kernel: nat, held: map<nat, set<nat>>, t: nat, i: nat, w: Word)
    requires HeldOk(mem, loc, kernel, held) && t in loc && loc[t].path != P0
    ensures HeldOk(Put(mem, t, i, w), loc, kernel, held)
  {
  }

  /** A write below the kernel's root leaves every process as it was. */
  lemma PutKernel(mem: Mem, loc: Places, at: Tables, leaf: Places, held: map<nat, set<nat>>, kernel: nat, t: nat,
                  i: nat, w: Word)
    requires Owned(mem, loc, at, leaf, held, kernel) && t in loc && loc[t].path != P0 && loc[t].root == kernel
    requires !IsTable(Level(loc[t].path), Get(mem, t, i))
    ensures Owned(Put(mem, t, i, w), loc, at, leaf, held, kernel)
  {
    hide HeldOk, UserTables, UserPages, Inverse, AllHang;
    PutForest(mem, loc, at, t, i, w);
    PutHeld(mem, loc, kernel, held, t, i, w);
    PutElsewhereTables(mem, loc, leaf, kernel, t, i, w);
    PutElsewherePages(mem, loc, at, leaf, kernel, t, i, w);
  }

  lemma PutElsewhereTables(mem: Mem, loc: Places, leaf: Places, kernel: nat, t: nat, i: nat, w: Word)
    requires UserTables(mem, loc, leaf, kernel) && t in loc && loc[t].root == kernel
    ensures UserTables(Put(mem, t, i, w), loc, leaf, kernel)
  {
    forall x, j | x in loc && loc[x].root != kernel && loc[x].path != P0 && 0 <= j < ENTRIES
      ensures UserEntry(Put(mem, t, i, w), loc, leaf, x, j)
    {
      assert UserEntry(mem, loc, leaf, x, j);
    }
  }

  lemma PutElsewherePages(mem: Mem, loc: Places, at: Tables, leaf: Places, kernel: nat, t: nat, i: nat, w: Word)
    requires Inverse(loc, at) && UserPages(mem, loc, at, leaf, kernel) && t in loc && loc[t].root == kernel
    ensures UserPages(Put(mem, t, i, w), loc, at, leaf, kernel)
  {
  }

  /** The record after entry `i` of table `t` became `w`: its old page is gone, its new one is there. */
  ghost function Recorded(mem: Mem, loc: Places, leaf: Places, t: nat, i: nat, w: Word): Places
    requires t in loc
  {
    var rest := if Get(mem, t, i).present then leaf - {Get(mem, t, i).addr} else leaf;
    if w.present then rest[w.addr := Place(loc[t].root, Child(loc[t].path, i))] else rest
  }

  lemma PutUserTables(mem: Mem, loc: Places, at: Tables, leaf: Places, kernel: nat, t: nat, i: nat, w: Word)
    requires Inverse(loc, at) && UserTables(mem, loc, leaf, kernel) && t in loc && loc[t].path.P3?
             && loc[t].root != kernel && i < ENTRIES
    requires t in mem && |mem[t]| == ENTRIES
    requires w.present ==> w.addr !in leaf || (Get(mem, t, i).present && w.addr == Get(mem, t, i).addr)
    ensures UserTables(Put(mem, t, i, w), loc, Recorded(mem, loc, leaf, t, i, w), kernel)
  {
    var mem', leaf' := Put(mem, t, i, w), Recorded(mem, loc, leaf, t, i, w);
    assert UserEntry(mem, loc, leaf, t, i);
    forall x, j | x in loc && loc[x].root != kernel && loc[x].path != P0 && 0 <= j < ENTRIES
      ensures UserEntry(mem', loc, leaf', x, j) {
      assert UserEntry(mem, loc, leaf, x, j);
      if loc[x].path.P3? {
        ParentOfChild(loc[x], j);
      }
      ParentOfChild(loc[t], i);
      assert at[loc[x]] == x && at[loc[t]] == t;
    }
  }

  lemma PutUserPages(mem: Mem, loc: Places, at: Tables, leaf: Places, kernel: nat, t: nat, i: nat, w: Word)
    requires Inverse(loc, at) && UserPages(mem, loc, at, leaf, kernel) && t in loc && loc[t].path.P3?
             && loc[t].root != kernel && i < ENTRIES
    requires t in mem && |mem[t]| == ENTRIES && PathOk(loc[t].path)
    requires w.present ==> w.addr !in loc
    ensures UserPages(Put(mem, t, i, w), loc, at, Recorded(mem, loc, leaf, t, i, w), kernel)
  {
  }

  /** Writing a page entry of a process keeps the records exact. */
  lemma PutUser(mem: Mem, loc: Places, at: Tables, leaf: Places, held: map<nat, set<nat>>, kernel: nat, t: nat, i: nat,
                w: Word)
    requires Owned(mem, loc, at, leaf, held, kernel) && t in loc && loc[t].path.P3? && loc[t].root != kernel
             && i < ENTRIES
    requires t in mem && |mem[t]| == ENTRIES
    requires w.present ==>
               w.addr !in loc && (w.addr !in leaf
               || (Get(mem, t, i).present && w.addr == Get(mem, t, i).addr))
    ensures Owned(Put(mem, t, i, w), loc, at, Recorded(mem, loc, leaf, t, i, w), held, kernel)
  {
    hide HeldOk, UserTables, UserPages, Inverse, Recorded;
    assert PathOk(loc[t].path);
    PutForest(mem, loc, at, t, i, w);
    PutHeld(mem, loc, kernel, held, t, i, w);
    PutUserTables(mem, loc, at, leaf, kernel, t, i, w);
    PutUserPages(mem, loc, at, leaf, kernel, t, i, w);
  }
}
