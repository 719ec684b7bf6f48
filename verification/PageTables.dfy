/** Four-level page tables in memory, what they translate, and how single entry writes change that.

    `loc` maps every table frame to its place: the root it belongs to and the indices that lead to it.
    A map has one value per key, so no table hangs in two places. */
module PageTables {
  import opened Wrappers
  import opened PageEntries

  /** First top-level index of the kernel half. */
  const KERNEL_START: nat := 256

  type Mem = map<nat, seq<Word>>

  function Get(mem: Mem, t: nat, i: nat): Word
  {
    if t in mem && i < |mem[t]| then mem[t][i] else ZERO
  }

  function Put(mem: Mem, t: nat, i: nat, w: Word): Mem
  {
    if t in mem && i < |mem[t]| then mem[t := mem[t][i := w]] else mem
  }

  function Zeroed(): seq<Word> { seq(ENTRIES, _ => ZERO) }

  /** The indices that lead from a root to a table (P0 to P3) or to a 4 KiB page (P4). */
  datatype Path = P0 | P1(i0: nat) | P2(i0: nat, i1: nat) | P3(i0: nat, i1: nat, i2: nat)
    | P4(i0: nat, i1: nat, i2: nat, i3: nat)

  function Level(p: Path): nat
  {
    match p case P0 => 0 case P1(_) => 1 case P2(_, _) => 2 case P3(_, _, _) => 3 case P4(_, _, _, _) => 4
  }

  function Child(p: Path, i: nat): Path
  {
    match p case P0 => P1(i) case P1(a) => P2(a, i) case P2(a, b) => P3(a, b, i) case P3(a, b, c) => P4(a, b, c,
      i) case P4(_, _, _, _) => p
  }

  /** The place of the table that translates index `k` of `va`. */
  function PathTo(va: Va, k: nat): Path
  {
    if k == 0 then P0 else if k == 1 then P1(va.i0) else if k == 2 then P2(va.i0, va.i1)
    else if k == 3 then P3(va.i0, va.i1, va.i2) else P4(va.i0, va.i1, va.i2, va.i3)
  }

  datatype Place = Place(root: nat, path: Path)

  type Places = map<nat, Place>

  /** Where entry `i` of a table leads: the kernel half of every root is the kernel's own. */
  function ChildPlace(kernel: nat, p: Place, i: nat): Place
  {
    if p.path == P0 && p.root != kernel && i >= KERNEL_START then Place(kernel, P1(i))
      else Place(p.root, Child(p.path, i))
  }

  // ------------------------------------------------------------- translation

  /** The translation of page `va` found from table `t` at level `k` on. */
  ghost function View(mem: Mem, k: nat, t: nat, va: Va): Option<Mapping>
    decreases 3 - k
  {
    var w := Get(mem, t, Ix(va, k));
    if IsLeaf(k, w) then Some(LeafMapping(k, w, va))
    else if IsTable(k, w) then View(mem, k + 1, w.addr, va)
    else None
  }

  /** The software walk of the source: the physical address behind `virt`. */
  function Walk(mem: Mem, root: nat, virt: nat): Option<nat>
  {
    var va := PageOf(virt);
    var e0 := Get(mem, root, va.i0);
    if !e0.present then None else
    var e1 := Get(mem, e0.addr, va.i1);
    if !e1.present then None else
    if e1.bit7 then Some(e1.addr / 0x4_0000 * 0x4_0000 * 0x1000 + virt % 0x4000_0000) else
    var e2 := Get(mem, e1.addr, va.i2);
    if !e2.present then None else
    if e2.bit7 then Some(e2.addr / 0x200 * 0x200 * 0x1000 + virt % 0x20_0000) else
    var e3 := Get(mem, e2.addr, va.i3);
    if !e3.present then None else Some(e3.addr * 0x1000 + virt % 0x1000)
  }

  lemma OffsetParts(virt: nat)
    ensures virt % 0x20_0000 == PageOf(virt).i3 * 0x1000 + virt % 0x1000
    ensures virt % 0x4000_0000 == PageOf(virt).i2 * 0x20_0000 + virt % 0x20_0000
  {
    assert virt / 0x1000 / 512 == virt / 0x20_0000;
    assert virt / 0x20_0000 / 512 == virt / 0x4000_0000;
  }

  /** Where the byte `virt` of a leaf at level `k` lies. */
  function LeafByte(k: nat, w: Word, virt: nat): nat { LeafMapping(k, w, PageOf(virt)).frame * 0x1000 + virt % 0x1000 }

  lemma LeafBytes(w: Word, virt: nat)
    ensures LeafByte(1, w, virt) == w.addr / 0x4_0000 * 0x4_0000 * 0x1000 + virt % 0x4000_0000
    ensures LeafByte(2, w, virt) == w.addr / 0x200 * 0x200 * 0x1000 + virt % 0x20_0000
    ensures LeafByte(3, w, virt) == w.addr * 0x1000 + virt % 0x1000
  {
    hide PageOf;
    OffsetParts(virt);
  }

  function AsByte(m: Option<Mapping>, virt: nat): Option<nat>
  {
    match m case None => None case Some(m) => Some(m.frame * 0x1000 + virt % 0x1000)
  }

  /** The walk finds the byte of the frame that the page is mapped to, and nothing when it is not. */
  lemma WalkIsView(mem: Mem, root: nat, virt: nat)
    requires !Get(mem, root, PageOf(virt).i0).bit7
    ensures Walk(mem, root, virt) == AsByte(View(mem, 0, root, PageOf(virt)), virt)
  {
    hide PageOf, LeafMapping;
    var va := PageOf(virt);
    var e0 := Get(mem, root, va.i0);
    var e1 := Get(mem, e0.addr, va.i1);
    var e2 := Get(mem, e1.addr, va.i2);
    LeafBytes(e1, virt);
    LeafBytes(e2, virt);
    LeafBytes(Get(mem, e2.addr, va.i3), virt);
    assert e0.present ==> View(mem, 0, root, va) == View(mem, 1, e0.addr, va);
    assert e1.present && !e1.bit7 ==> View(mem, 1, e0.addr, va) == View(mem, 2, e1.addr, va);
    assert e2.present && !e2.bit7 ==> View(mem, 2, e1.addr, va) == View(mem, 3, e2.addr, va);
  }

  // ------------------------------------------------------------- well-formed

  ghost predicate EntryOk(mem: Mem, loc: Places, kernel: nat, t: nat, i: nat)
    requires t in loc
  {
    var w := Get(mem, t, i);
    && (IsTable(Level(loc[t].path), w) ==>
          w.addr in loc && loc[w.addr] == ChildPlace(kernel, loc[t], i) && w.writable && w.user)
    && (loc[t].path == P0 && w.present ==> !w.bit7)
  }

  ghost predicate TableOk(mem: Mem, loc: Places, kernel: nat, t: nat)
    requires t in loc
  {
    && t in mem && |mem[t]| == ENTRIES && Level(loc[t].path) <= 3
    && (loc[t].path == P0 ==> loc[t].root == t)
    && loc[t].root in loc && loc[loc[t].root] == Place(loc[t].root, P0)
    && (forall i | 0 <= i < ENTRIES :: EntryOk(mem, loc, kernel, t, i))
  }

  /** A process root's kernel half holds entries of the kernel's root, or nothing. */
  ghost predicate SharedOk(mem: Mem, loc: Places, kernel: nat)
  {
    forall r, i | r in loc && loc[r].path == P0 && r != kernel && KERNEL_START <= i < ENTRIES
      && Get(mem, r, i).present ::
      Get(mem, r, i) == Get(mem, kernel, i)
  }

  ghost predicate TablesOk(mem: Mem, loc: Places, kernel: nat)
  {
    && kernel in loc && loc[kernel] == Place(kernel, P0)
    && (forall t | t in loc :: TableOk(mem, loc, kernel, t))
    && SharedOk(mem, loc, kernel)
  }

  ghost predicate IsRoot(loc: Places, r: nat) { r in loc && loc[r] == Place(r, P0) }

  /** The root whose tables translate `va` below the top level. */
  function Owner(kernel: nat, r: nat, va: Va): nat { if r != kernel && va.i0 >= KERNEL_START then kernel else r }

  /** Where a walk that has come to table `t` goes next. */
  lemma ChildInPlace(mem: Mem, loc: Places, kernel: nat, t: nat, k: nat, va: Va)
    requires TablesOk(mem, loc, kernel) && t in loc && VaOk(va) && k < 3 && Level(loc[t].path) == k
    requires IsTable(k, Get(mem, t, Ix(va, k)))
    ensures var c := Get(mem, t, Ix(va, k)).addr;
            c in loc && Level(loc[c].path) == k + 1 && loc[c] == ChildPlace(kernel, loc[t], Ix(va, k))
  {
    assert TableOk(mem, loc, kernel, t);
    assert EntryOk(mem, loc, kernel, t, Ix(va, k));
  }

  // ----------------------------------------------------------- entry changes

  /** `mem'` agrees with `mem` on all tables of `loc`, except perhaps at entry `i` of `t`. */
  ghost predicate OnlyEntry(mem: Mem, mem': Mem, loc: Places, t: nat, i: nat)
  {
    forall x, j | x in loc && 0 <= j < ENTRIES && (x != t || j != i) :: Get(mem', x, j) == Get(mem, x, j)
  }

  /** If one entry was replaced by something that translates alike, every translation stays. */
  lemma {:induction false} LocalChange(mem: Mem, mem': Mem, loc: Places, kernel: nat, t: nat, i: nat, k: nat, x: nat,
                                       va: Va)
    requires TablesOk(mem, loc, kernel) && t in loc && OnlyEntry(mem, mem', loc, t, i) && VaOk(va)
    requires k <= 3 && x in loc && Level(loc[x].path) == k
    requires forall va' | VaOk(va') && Ix(va', Level(loc[t].path)) == i ::
               View(mem', Level(loc[t].path), t, va') == View(mem, Level(loc[t].path), t, va')
    ensures View(mem', k, x, va) == View(mem, k, x, va)
    decreases 3 - k
  {
    if x != t || Ix(va, k) != i {
      var w := Get(mem, x, Ix(va, k));
      assert Get(mem', x, Ix(va, k)) == w;
      if IsTable(k, w) {
        ChildInPlace(mem, loc, kernel, x, k, va);
        LocalChange(mem, mem', loc, kernel, t, i, k + 1, w.addr, va);
      }
    }
  }

  /** Whether the walk of `va` in the tables of root `root` comes past entry `i` of `t`. */
  ghost predicate Hits(loc: Places, t: nat, i: nat, root: nat, va: Va)
    requires t in loc
  {
    var k := Level(loc[t].path);
    loc[t].root == root && loc[t].path == PathTo(va, k) && Ix(va, k) == i
  }

  /** Writing one entry below a root changes no page whose walk does not come past it. */
  lemma {:induction false} EntryChange(mem: Mem, mem': Mem, loc: Places, kernel: nat, t: nat, i: nat, k: nat, x: nat,
                                       va: Va)
    requires TablesOk(mem, loc, kernel) && t in loc && 0 < Level(loc[t].path) && OnlyEntry(mem, mem', loc, t, i)
    requires VaOk(va) && 0 < k <= 3 && x in loc && loc[x].path == PathTo(va, k)
    requires !Hits(loc, t, i, loc[x].root, va)
    ensures View(mem', k, x, va) == View(mem, k, x, va)
    decreases 3 - k
  {
    var w := Get(mem, x, Ix(va, k));
    assert Get(mem', x, Ix(va, k)) == w;
    if IsTable(k, w) {
      ChildInPlace(mem, loc, kernel, x, k, va);
      EntryChange(mem, mem', loc, kernel, t, i, k + 1, w.addr, va);
    }
  }

  /** Seen from the roots: only pages of the owning root, and of the roots that share it, may change. */
  lemma EntryChangeFromRoot(mem: Mem, mem': Mem, loc: Places, kernel: nat, t: nat, i: nat, r: nat, va: Va)
    requires TablesOk(mem, loc, kernel) && t in loc && 0 < Level(loc[t].path) && OnlyEntry(mem, mem', loc, t, i)
    requires VaOk(va) && IsRoot(loc, r) && !Hits(loc, t, i, Owner(kernel, r, va), va)
    ensures View(mem', 0, r, va) == View(mem, 0, r, va)
  {
    var w := Get(mem, r, va.i0);
    assert TableOk(mem, loc, kernel, r);
    assert TableOk(mem, loc, kernel, t);
    assert Get(mem', r, va.i0) == w;
    if IsTable(0, w) {
      ChildInPlace(mem, loc, kernel, r, 0, va);
      EntryChange(mem, mem', loc, kernel, t, i, 1, w.addr, va);
    }
  }

  /** Writing an entry that is no table, over one that is no table, keeps the tables well-formed. */
  lemma PutTables(mem: Mem, loc: Places, kernel: nat, t: nat, i: nat, w: Word)
    requires TablesOk(mem, loc, kernel) && t in loc && i < ENTRIES && 0 < Level(loc[t].path)
    requires !IsTable(Level(loc[t].path), w)
    ensures TablesOk(Put(mem, t, i, w), loc, kernel)
    ensures OnlyEntry(mem, Put(mem, t, i, w), loc, t, i)
  {
    var mem' := Put(mem, t, i, w);
    assert TableOk(mem, loc, kernel, t);
    forall x | x in loc ensures TableOk(mem', loc, kernel, x) {
      assert TableOk(mem, loc, kernel, x);
      forall j | 0 <= j < ENTRIES ensures EntryOk(mem', loc, kernel, x, j) {
        assert EntryOk(mem, loc, kernel, x, j);
      }
    }
    PutShared(mem, loc, kernel, t, i, w);
  }

  lemma PutShared(mem: Mem, loc: Places, kernel: nat, t: nat, i: nat, w: Word)
    requires TablesOk(mem, loc, kernel) && t in loc && i < ENTRIES && 0 < Level(loc[t].path)
    ensures SharedOk(Put(mem, t, i, w), loc, kernel)
  {
    hide IsTable;
    var mem' := Put(mem, t, i, w);
    forall r, j | r in loc && loc[r].path == P0 && r != kernel && KERNEL_START <= j < ENTRIES && Get(mem', r, j).present
      ensures Get(mem', r, j) == Get(mem', kernel, j)
    {
      assert Get(mem, r, j) == Get(mem, kernel, j);
    }
  }

  /** All tables of `loc` are still in place and translate as before. */
  ghost predicate SameViews(mem: Mem, loc: Places, mem': Mem, loc': Places)
  {
    && (forall t | t in loc :: t in loc' && loc'[t] == loc[t])
    && (forall t, va | t in loc && VaOk(va) ::
       View(mem', Level(loc[t].path), t, va) == View(mem, Level(loc[t].path), t, va))
  }

  // ------------------------------------------------------------- a new table

  /** `mem'` is `mem` with a new table `f`, filled with `words`, hung at entry `i` of `t`. */
  ghost predicate Hung(mem: Mem, mem': Mem, t: nat, i: nat, f: nat, words: seq<Word>)
  {
    t in mem && i < |mem[t]| && mem' == mem[f := words][t := mem[t][i := TableWord(f)]]
  }

  /** The new table translates what the entry did, and holds no tables itself. */
  ghost predicate Replaces(mem: Mem, k: nat, t: nat, i: nat, words: seq<Word>)
  {
    && |words| == ENTRIES && k < 3
    && (forall j | 0 <= j < ENTRIES :: !IsTable(k + 1, words[j]))
    && (forall va | VaOk(va) && Ix(va, k) == i ::
          View(mem, k, t, va) == if IsLeaf(k + 1,
            words[Ix(va, k + 1)]) then Some(LeafMapping(k + 1, words[Ix(va, k + 1)], va)) else None)
  }

  lemma HungGet(mem: Mem, mem': Mem, t: nat, i: nat, f: nat, words: seq<Word>, x: nat, j: nat)
    requires Hung(mem, mem', t, i, f, words) && f != t
    ensures x != f && (x != t || j != i) ==> Get(mem', x, j) == Get(mem, x, j)
    ensures Get(mem', t, i) == TableWord(f)
    ensures Get(mem', f, j) == if j < |words| then words[j] else ZERO
  {
  }

  lemma HungTables(mem: Mem, mem': Mem, loc: Places, kernel: nat, t: nat, i: nat, f: nat, words: seq<Word>)
    requires TablesOk(mem, loc, kernel) && t in loc && f !in loc && i < ENTRIES && Level(loc[t].path) < 3
    requires Hung(mem, mem', t, i, f, words) && Replaces(mem, Level(loc[t].path), t, i, words)
    requires loc[t].root == kernel || loc[t].path != P0 || i < KERNEL_START
    requires loc[t].path == P0 ==> !Get(mem, t, i).present
    ensures TablesOk(mem', loc[f := ChildPlace(kernel, loc[t], i)], kernel)
  {
    hide Replaces;
    var loc' := loc[f := ChildPlace(kernel, loc[t], i)];
    forall x | x in loc' ensures TableOk(mem', loc', kernel, x) {
      HungTable(mem, mem', loc, kernel, t, i, f, words, x);
    }
    assert SharedOk(mem', loc', kernel) by {
      HungShared(mem, mem', loc, kernel, t, i, f, words);
    }
  }

  lemma HungTable(mem: Mem, mem': Mem, loc: Places, kernel: nat, t: nat, i: nat, f: nat, words: seq<Word>, x: nat)
    requires TablesOk(mem, loc, kernel) && t in loc && f !in loc && i < ENTRIES && Level(loc[t].path) < 3
    requires Hung(mem, mem', t, i, f, words) && Replaces(mem, Level(loc[t].path), t, i, words)
    requires loc[t].root == kernel || loc[t].path != P0 || i < KERNEL_START
    requires x in loc[f := ChildPlace(kernel, loc[t], i)]
    ensures TableOk(mem', loc[f := ChildPlace(kernel, loc[t], i)], kernel, x)
  {
    var loc' := loc[f := ChildPlace(kernel, loc[t], i)];
    assert TableOk(mem, loc, kernel, t);
    assert x != f ==> TableOk(mem, loc, kernel, x);
    forall j | 0 <= j < ENTRIES ensures EntryOk(mem', loc', kernel, x, j) {
      HungGet(mem, mem', t, i, f, words, x, j);
      if x != f && (x != t || j != i) {
        assert EntryOk(mem, loc, kernel, x, j);
      }
    }
  }

  lemma HungShared(mem: Mem, mem': Mem, loc: Places, kernel: nat, t: nat, i: nat, f: nat, words: seq<Word>)
    requires TablesOk(mem, loc, kernel) && t in loc && f !in loc && i < ENTRIES && Level(loc[t].path) < 3
    requires Hung(mem, mem', t, i, f, words)
    requires loc[t].root == kernel || loc[t].path != P0 || i < KERNEL_START
    requires loc[t].path == P0 ==> !Get(mem, t, i).present
    ensures SharedOk(mem', loc[f := ChildPlace(kernel, loc[t], i)], kernel)
  {
    var loc' := loc[f := ChildPlace(kernel, loc[t], i)];
    assert TableOk(mem, loc, kernel, t);
    forall r, j | r in loc' && loc'[r].path == P0 && r != kernel && KERNEL_START <= j < ENTRIES
      && Get(mem', r, j).present
      ensures Get(mem', r, j) == Get(mem', kernel, j)
    {
      assert TableOk(mem, loc, kernel, r);
      HungGet(mem, mem', t, i, f, words, r, j);
      HungGet(mem, mem', t, i, f, words, kernel, j);
      assert Get(mem, r, j) == Get(mem, kernel, j);
    }
  }

  lemma HungViews(mem: Mem, mem': Mem, loc: Places, kernel: nat, t: nat, i: nat, f: nat, words: seq<Word>)
    requires TablesOk(mem, loc, kernel) && t in loc && f !in loc && i < ENTRIES && Level(loc[t].path) < 3
    requires Hung(mem, mem', t, i, f, words) && Replaces(mem, Level(loc[t].path), t, i, words)
    ensures SameViews(mem, loc, mem', loc[f := ChildPlace(kernel, loc[t], i)])
  {
    hide Replaces, View, LeafMapping;
    assert OnlyEntry(mem, mem', loc, t, i) by {
      forall x, j | x in loc && 0 <= j < ENTRIES && (x != t || j != i) ensures Get(mem', x, j) == Get(mem, x, j) {
        HungGet(mem, mem', t, i, f, words, x, j);
      }
    }
    forall va | VaOk(va) && Ix(va, Level(loc[t].path)) == i
      ensures View(mem', Level(loc[t].path), t, va) == View(mem, Level(loc[t].path), t, va)
    {
      HungHere(mem, mem', Level(loc[t].path), t, i, f, words, va);
    }
    forall x, va | x in loc && VaOk(va) ensures View(mem', Level(loc[x].path), x, va)
      == View(mem, Level(loc[x].path), x, va) {
      LocalChange(mem, mem', loc, kernel, t, i, Level(loc[x].path), x, va);
    }
  }

  lemma HungHere(mem: Mem, mem': Mem, k: nat, t: nat, i: nat, f: nat, words: seq<Word>, va: Va)
    requires Hung(mem, mem', t, i, f, words) && Replaces(mem, k, t, i, words) && f != t && VaOk(va) && Ix(va, k) == i
    ensures View(mem', k, t, va) == View(mem, k, t, va)
  {
    HungGet(mem, mem', t, i, f, words, f, Ix(va, k + 1));
    assert View(mem', k, t, va) == View(mem', k + 1, f, va);
    assert !IsTable(k + 1, words[Ix(va, k + 1)]);
  }

  /** A zeroed table stands for an absent entry. */
  lemma EmptyReplaces(mem: Mem, k: nat, t: nat, i: nat)
    requires k < 3 && !Get(mem, t, i).present
    ensures Replaces(mem, k, t, i, Zeroed())
  {
  }

  lemma Split2MReplaces(mem: Mem, t: nat, i: nat, words: seq<Word>)
    requires IsLeaf(2, Get(mem, t, i)) && |words| == ENTRIES
    requires forall j | 0 <= j < ENTRIES :: words[j] == Split2M(Get(mem, t, i), j)
    ensures Replaces(mem, 2, t, i, words)
  {
    hide LeafMapping;
    forall va | VaOk(va) && va.i2 == i ensures IsLeaf(3, words[va.i3])
      && View(mem, 2, t, va) == Some(LeafMapping(3, words[va.i3], va)) {
      Split2MKeeps(Get(mem, t, i), va);
    }
  }

  lemma Split1GReplaces(mem: Mem, t: nat, i: nat, words: seq<Word>)
    requires IsLeaf(1, Get(mem, t, i)) && |words| == ENTRIES
    requires forall j | 0 <= j < ENTRIES :: words[j] == Split1G(Get(mem, t, i), j)
    ensures Replaces(mem, 1, t, i, words)
  {
    hide LeafMapping;
    forall va | VaOk(va) && va.i1 == i ensures IsLeaf(2, words[va.i2])
      && View(mem, 1, t, va) == Some(LeafMapping(2, words[va.i2], va)) {
      Split1GKeeps(Get(mem, t, i), va);
    }
  }
}
