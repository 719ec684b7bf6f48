/** Copying between kernel buffers and the memory of the current process. */
module UserCopy {
  import opened Wrappers
  import opened Bytes
  import opened PageEntries
  import opened PageTables
  import opened PageOwners
  import opened PageSteps
  import opened PageSpaces

  const PAGE: nat := 0x1000

  /** Physical memory, byte by byte. */
  type Memory = map<nat, Byte>

  function ByteAt(data: Memory, a: nat): Byte { if a in data then data[a] else 0 }

  predicate OpenEntry(w: Word) { w.present && w.user }

  /** Frame behind page `va` for an access from user mode: a 4 KiB page that every level opens to users, and
      for a write the page itself opens to writing. */
  function UserFrame(mem: Mem, root: nat, va: Va, write: bool): Option<nat>
  {
    var e0 := Get(mem, root, va.i0);
    if !OpenEntry(e0) then None else
    var e1 := Get(mem, e0.addr, va.i1);
    if !OpenEntry(e1) || e1.bit7 then None else
    var e2 := Get(mem, e1.addr, va.i2);
    if !OpenEntry(e2) || e2.bit7 then None else
    var e3 := Get(mem, e2.addr, va.i3);
    if !OpenEntry(e3) || (write && !e3.writable) then None else Some(e3.addr)
  }

  /** The software walk of the source for a user read or write. */
  function WalkUser(mem: Mem, root: nat, virt: nat, write: bool): Option<nat>
  {
    match UserFrame(mem, root, PageOf(virt), write)
    case None => None
    case Some(f) => Some(f * PAGE + virt % PAGE)
  }

  lemma SamePageIndex(x: nat, y: nat)
    requires x / PAGE == y / PAGE
    ensures PageOf(x) == PageOf(y)
  {
    assert x / 0x20_0000 == x / PAGE / 512 && y / 0x20_0000 == y / PAGE / 512;
    assert x / 0x4000_0000 == x / PAGE / 0x4_0000 && y / 0x4000_0000 == y / PAGE / 0x4_0000;
    assert x / 0x80_0000_0000 == x / PAGE / 0x800_0000 && y / 0x80_0000_0000 == y / PAGE / 0x800_0000;
  }

  /** The walk moves through a page byte by byte. */
  lemma WalkInPage(mem: Mem, root: nat, x: nat, y: nat, write: bool)
    requires x / PAGE == y / PAGE
    ensures WalkUser(mem, root, x, write).Some? <==> WalkUser(mem, root, y, write).Some?
    ensures WalkUser(mem, root, x, write).Some? ==>
              WalkUser(mem, root, y, write).value - WalkUser(mem, root, x, write).value == y - x
  {
    hide UserFrame, PageOf;
    SamePageIndex(x, y);
  }

  lemma WriteIsRead(mem: Mem, root: nat, x: nat)
    ensures WalkUser(mem, root, x, true).Some? ==> WalkUser(mem, root, x, false) == WalkUser(mem, root, x, true)
  {
  }

  /** The whole range lies in user space and every byte of it is mapped for the access. */
  ghost predicate UserRange(mem: Mem, root: nat, addr: nat, len: nat, write: bool)
  {
    len > 0 ==> addr + len <= USER_SPACE_END && forall x | addr <= x < addr + len :: WalkUser(mem, root, x, write).Some?
  }

  /** No physical byte stands behind two addresses of the range. */
  ghost predicate Distinct(mem: Mem, root: nat, addr: nat, len: nat)
  {
    forall x, y | addr <= x < y < addr + len ::
      WalkUser(mem, root, x, false).Some? && WalkUser(mem, root, y, false).Some? ==>
        WalkUser(mem, root, x, false) != WalkUser(mem, root, y, false)
  }

  /** The physical address of byte `x`. */
  ghost function Behind(mem: Mem, root: nat, x: nat): nat
  {
    match WalkUser(mem, root, x, false) case None => 0 case Some(a) => a
  }

  function Nth(bytes: seq<Byte>, phys: nat, a: nat): Byte { if phys <= a < phys + |bytes| then bytes[a - phys] else 0 }

  /** `bytes` stored from physical address `phys` on. */
  function Store(data: Memory, phys: nat, bytes: seq<Byte>): Memory
  {
    data + (map a: nat | phys <= a < phys + |bytes| :: Nth(bytes, phys, a))
  }

  /** Only bytes behind the range differ. */
  ghost predicate Elsewhere(mem: Mem, root: nat, addr: nat, len: nat, data: Memory, data': Memory)
  {
    forall a: nat | (forall x | addr <= x < addr + len :: Behind(mem, root, x) != a) ::
      ByteAt(data', a) == ByteAt(data, a)
  }

  /** User memory from `addr` on reads as `src`. */
  ghost predicate Stored(mem: Mem, root: nat, addr: nat, src: seq<Byte>, data: Memory)
  {
    forall i | 0 <= i < |src| :: ByteAt(data, Behind(mem, root, addr + i)) == src[i]
  }

  // -------------------------------------------------- the same, on translations

  /** `s` is the root of a process in a well-formed memory. */
  ghost predicate Process(mem: Mem, s: nat)
  {
    exists loc, at, leaf, held, kernel, free :: VmOk(mem, loc, at, leaf, held, kernel, free) && s in held
  }

  /** The whole range lies in user space, and every page of it is mapped, open to users and, for a write, to
      writing. */
  ghost predicate MappedRange(mem: Mem, root: nat, addr: nat, len: nat, write: bool)
  {
    len > 0 ==>
      && addr + len <= USER_SPACE_END
      && forall x | addr <= x < addr + len ::
           var v := View(mem, 0, root, PageOf(x)); v.Some? && v.value.attrs.user && (write ==> v.value.attrs.writable)
  }

  /** The physical address that the translation gives for byte `x`. */
  ghost function PhysOf(mem: Mem, root: nat, x: nat): nat
  {
    match View(mem, 0, root, PageOf(x)) case None => 0 case Some(m) => m.frame * PAGE + x % PAGE
  }

  /** User memory from `addr` on holds `bytes`. */
  ghost predicate Holds(mem: Mem, root: nat, addr: nat, bytes: seq<Byte>, data: Memory)
  {
    forall i | 0 <= i < |bytes| :: ByteAt(data, PhysOf(mem, root, addr + i)) == bytes[i]
  }

  /** Only bytes of the range differ. */
  ghost predicate SameOutside(mem: Mem, root: nat, addr: nat, len: nat, data: Memory, data': Memory)
  {
    forall a: nat | (forall x | addr <= x < addr + len :: PhysOf(mem, root, x) != a) ::
      ByteAt(data', a) == ByteAt(data, a)
  }

  class UserMemory {
    const tables: Mem
    const cr3: nat
    var data: Memory

    /** Validate a complete range before any part of it is copied. */
    method ValidateUserRange(addr: nat, len: nat, write: bool) returns (ok: bool)
      requires addr < 0x1_0000_0000_0000_0000 && len < 0x1_0000_0000_0000_0000
      ensures ok <==> UserRange(tables, cr3, addr, len, write)
      ensures Process(tables, cr3) ==> (ok <==> MappedRange(tables, cr3, addr, len, write))
    {
      hide WalkUser, Process, MappedRange;
      RangeOnView(tables, cr3, addr, len, write);
      if len == 0 { return true; }
      var end := addr + len;
      if end >= 0x1_0000_0000_0000_0000 { return false; }
      if addr >= USER_SPACE_END || end > USER_SPACE_END { return false; }
      var va := addr;
      while va < end
        invariant addr <= va <= end && (va == end || va == addr || va % PAGE == 0)
        invariant forall x | addr <= x < va :: WalkUser(tables, cr3, x, write).Some?
      {
        var mapped := WalkUser(tables, cr3, va, write);
        if mapped.None? { return false; }
        var nextPage := va / PAGE * PAGE + PAGE;
        var next := if nextPage < end then nextPage else end;
        forall x | va <= x < next ensures WalkUser(tables, cr3, x, write).Some? {
          WalkInPage(tables, cr3, va, x, write);
        }
        va := next;
      }
      return true;
    }

    /** Copy `src` into user memory at `dst`, all of it or nothing. */
    method CopyToUser(dst: nat, src: seq<Byte>) returns (ok: bool)
      requires dst < 0x1_0000_0000_0000_0000 && |src| < 0x1_0000_0000_0000_0000
      modifies this
      ensures ok <==> UserRange(tables, cr3, dst, |src|, true)
      ensures !ok ==> data == old(data)
      ensures Elsewhere(tables, cr3, dst, |src|, old(data), data)
      ensures ok && Distinct(tables, cr3, dst, |src|) ==> Stored(tables, cr3, dst, src, data)
      ensures Process(tables, cr3) ==> (ok <==> MappedRange(tables, cr3, dst, |src|, true))
      ensures Process(tables, cr3) && ok ==>
                Holds(tables, cr3, dst, src, data) && SameOutside(tables, cr3, dst, |src|, old(data), data)
    {
      hide WalkUser, Stored, Elsewhere, Distinct, Store, Process, MappedRange, Holds, SameOutside;
      ok := ValidateUserRange(dst, |src|, true);
      NothingStored(tables, cr3, dst, |src|, data);
      if !ok { return; }
      var done := 0;
      while done < |src|
        invariant 0 <= done <= |src|
        invariant Elsewhere(tables, cr3, dst, |src|, old(data), data)
        invariant Distinct(tables, cr3, dst, |src|) ==> Stored(tables, cr3, dst, src[..done], data)
      {
        var va := dst + done;
        var pageOff := va % PAGE;
        var n := if |src| - done < PAGE - pageOff then |src| - done else PAGE - pageOff;
        var phys := WalkUser(tables, cr3, va, true);
        assert phys.Some?;
        ghost var before := data;
        data := Store(data, phys.value, src[done..done + n]);
        PieceElsewhere(tables, cr3, old(data), before, data, dst, src, done, n);
        PieceStored(tables, cr3, before, data, dst, src, done, n);
        done := done + n;
      }
      assert src[..done] == src;
      WroteOnView(tables, cr3, dst, src, old(data), data);
    }

    /** Copy user memory at `src` into `dst`, all of it or nothing. */
    method CopyFromUser(dst: array<Byte>, src: nat) returns (ok: bool)
      requires src < 0x1_0000_0000_0000_0000 && dst.Length < 0x1_0000_0000_0000_0000
      modifies dst
      ensures ok <==> UserRange(tables, cr3, src, dst.Length, false)
      ensures !ok ==> dst[..] == old(dst[..])
      ensures ok ==> forall i | 0 <= i < dst.Length :: dst[i] == ByteAt(data, Behind(tables, cr3, src + i))
      ensures Process(tables, cr3) ==> (ok <==> MappedRange(tables, cr3, src, dst.Length, false))
      ensures Process(tables, cr3) && ok ==> Holds(tables, cr3, src, dst[..], data)
    {
      hide WalkUser, Process, MappedRange, Holds;
      ok := ValidateUserRange(src, dst.Length, false);
      if !ok { return; }
      var done := 0;
      while done < dst.Length
        invariant 0 <= done <= dst.Length
        invariant forall i | 0 <= i < done :: dst[i] == ByteAt(data, Behind(tables, cr3, src + i))
      {
        var va := src + done;
        var pageOff := va % PAGE;
        var n := if dst.Length - done < PAGE - pageOff then dst.Length - done else PAGE - pageOff;
        var phys := WalkUser(tables, cr3, va, false);
        assert phys.Some?;
        forall x | va <= x < va + n ensures Behind(tables, cr3, x) == phys.value + (x - va) {
          WalkInPage(tables, cr3, va, x, false);
        }
        forall i | 0 <= i < n { dst[done + i] := ByteAt(data, phys.value + i); }
        forall i | done <= i < done + n ensures dst[i] == ByteAt(data, Behind(tables, cr3, src + i)) {
          assert dst[done + (i - done)] == ByteAt(data, phys.value + (i - done));
          assert Behind(tables, cr3, src + i) == phys.value + (src + i - va);
        }
        done := done + n;
      }
      ReadOnView(tables, cr3, src, dst[..], data);
    }
  }

  /** The piece of a range that lies in one page is one run of physical bytes. */
  lemma PieceRun(mem: Mem, root: nat, va: nat, n: nat, i: nat)
    requires i < n <= PAGE - va % PAGE && WalkUser(mem, root, va, true).Some?
    ensures Behind(mem, root, va + i) == WalkUser(mem, root, va, true).value + i
            && WalkUser(mem, root, va + i, false).Some?
  {
    hide WalkUser;
    assert (va + i) / PAGE == va / PAGE;
    WalkInPage(mem, root, va, va + i, true);
    WriteIsRead(mem, root, va + i);
  }

  lemma StoreGet(data: Memory, phys: nat, bytes: seq<Byte>, a: nat)
    ensures ByteAt(Store(data, phys, bytes), a) == if phys <= a < phys + |bytes| then bytes[a - phys]
            else ByteAt(data, a)
  {
  }

  lemma NothingStored(mem: Mem, root: nat, addr: nat, len: nat, data: Memory)
    ensures Stored(mem, root, addr, [], data) && Elsewhere(mem, root, addr, len, data, data)
  {
  }

  ghost predicate Piece(mem: Mem, root: nat, data: Memory, data': Memory, dst: nat, src: seq<Byte>, done: nat, n: nat)
  {
    && 0 < n <= PAGE - (dst + done) % PAGE && done + n <= |src| && WalkUser(mem, root, dst + done, true).Some?
    && data' == Store(data, WalkUser(mem, root, dst + done, true).value, src[done..done + n])
  }

  lemma PieceElsewhere(mem: Mem, root: nat, data0: Memory, data: Memory, data': Memory, dst: nat, src: seq<Byte>,
                       done: nat, n: nat)
    requires Piece(mem, root, data, data', dst, src, done, n)
    requires Elsewhere(mem, root, dst, |src|, data0, data)
    ensures Elsewhere(mem, root, dst, |src|, data0, data')
  {
    hide WalkUser, Behind, Store, ByteAt;
    var phys := WalkUser(mem, root, dst + done, true).value;
    forall a: nat | (forall x | dst <= x < dst + |src| :: Behind(mem, root, x) != a)
      ensures ByteAt(data', a) == ByteAt(data0, a) {
      StoreGet(data, phys, src[done..done + n], a);
      var j := if phys <= a < phys + n then a - phys else 0;
      PieceRun(mem, root, dst + done, n, j);
      assert Behind(mem, root, dst + done + j) == phys + j;
    }
  }

  lemma PieceStored(mem: Mem, root: nat, data: Memory, data': Memory, dst: nat, src: seq<Byte>, done: nat, n: nat)
    requires Piece(mem, root, data, data', dst, src, done, n) && UserRange(mem, root, dst, |src|, true)
    requires Distinct(mem, root, dst, |src|) ==> Stored(mem, root, dst, src[..done], data)
    ensures Distinct(mem, root, dst, |src|) ==> Stored(mem, root, dst, src[..done + n], data')
  {
    hide WalkUser, Store, ByteAt;
    if Distinct(mem, root, dst, |src|) {
      forall i | 0 <= i < done + n ensures ByteAt(data', Behind(mem, root, dst + i)) == src[i] {
        assert i < done ==> src[..done][i] == src[i];
        OneStored(mem, root, data, data', dst, src, done, n, i);
      }
    }
  }

  lemma OneStored(mem: Mem, root: nat, data: Memory, data': Memory, dst: nat, src: seq<Byte>, done: nat, n: nat, i: nat)
    requires Piece(mem, root, data, data', dst, src, done, n) && UserRange(mem, root, dst, |src|, true)
             && Distinct(mem, root, dst, |src|)
    requires i < done + n && (i < done ==> ByteAt(data, Behind(mem, root, dst + i)) == src[i])
    ensures ByteAt(data', Behind(mem, root, dst + i)) == src[i]
  {
    hide WalkUser, Store, ByteAt;
    var phys := WalkUser(mem, root, dst + done, true).value;
    var a := Behind(mem, root, dst + i);
    StoreGet(data, phys, src[done..done + n], a);
    if i >= done {
      PieceRun(mem, root, dst + done, n, i - done);
    } else {
      WriteIsRead(mem, root, dst + i);
      assert WalkUser(mem, root, dst + i, true).Some?;
      var j := if phys <= a < phys + n then a - phys else 0;
      PieceRun(mem, root, dst + done, n, j);
      assert WalkUser(mem, root, dst + i, false) != WalkUser(mem, root, dst + done + j, false);
      assert a != phys + j;
    }
  }

  /** What is copied in is what is copied out. */
  method RoundTrip(um: UserMemory, addr: nat, src: seq<Byte>, buf: array<Byte>) returns (ok: bool)
    requires addr < 0x1_0000_0000_0000_0000 && |src| == buf.Length < 0x1_0000_0000_0000_0000
    modifies um, buf
    ensures ok <==> UserRange(um.tables, um.cr3, addr, |src|, true)
    ensures Process(um.tables, um.cr3) ==> (ok <==> MappedRange(um.tables, um.cr3, addr, |src|, true))
    ensures ok && (Process(um.tables, um.cr3) || Distinct(um.tables, um.cr3, addr, |src|)) ==> buf[..] == src
  {
    hide WalkUser, Process, MappedRange, PhysOf, SameOutside;
    ok := um.CopyToUser(addr, src);
    if ok {
      forall x | addr <= x < addr + |src| ensures WalkUser(um.tables, um.cr3, x, false).Some? {
        WriteIsRead(um.tables, um.cr3, x);
      }
      var _ := um.CopyFromUser(buf, addr);
    }
  }

  // ---------------------------------------------- distinct frames, from above

  /** The entry that leads down to a table is open to users and maps no large page. */
  lemma OpenDown(mem: Mem, loc: Places, at: Tables, leaf: Places, held: Held, kernel: nat, free: set<nat>, t: nat,
                 k: nat, va: Va)
    requires VmOk(mem, loc, at, leaf, held, kernel, free) && t in loc && VaOk(va) && k < 3
             && loc[t].path == PathTo(va, k)
    requires IsTable(k, Get(mem, t, Ix(va, k))) && (loc[t].root == kernel || va.i0 < KERNEL_START)
    ensures Get(mem, t, Ix(va, k)).user
  {
    hide UserTables, UserPages, HeldOk, TablesOk, View;
    WalkDown(mem, loc, at, leaf, held, kernel, free, t, k, va);
    var c := Get(mem, t, Ix(va, k)).addr;
    assert Hangs(mem, at, loc[c], c);
    assert Parent(loc[c]) == loc[t] && LastIndex(loc[c].path) == Ix(va, k);
  }

  /** In the user half of a process a present entry above the last level leads to a table. */
  lemma UserDown(mem: Mem, loc: Places, at: Tables, leaf: Places, held: Held, kernel: nat, free: set<nat>, t: nat,
                 k: nat, va: Va)
    requires VmOk(mem, loc, at, leaf, held, kernel, free) && t in loc && VaOk(va) && k < 3
             && loc[t].path == PathTo(va, k)
    requires loc[t].root != kernel && va.i0 < KERNEL_START && (k == 0 ==> IsRoot(loc, t))
    ensures Get(mem, t, Ix(va, k)).present ==>
              IsTable(k, Get(mem, t, Ix(va, k))) && !Get(mem, t, Ix(va, k)).bit7
  {
    hide UserPages, HeldOk, Forest, TablesOk;
    if k == 0 {
      NotLarge(mem, loc, at, leaf, held, kernel, free, t, va.i0);
    } else {
      assert UserEntry(mem, loc, leaf, t, Ix(va, k));
    }
  }

  /** What a translation allows: the frame, if the page is open to users and, for a write, to writing. */
  ghost function Allowed(v: Option<Mapping>, write: bool): Option<nat>
  {
    if v.Some? && v.value.attrs.user && (write ==> v.value.attrs.writable) then Some(v.value.frame) else None
  }

  /** In a process the walk of the source finds a page exactly when the page's translation allows the access. */
  lemma UserFrameIsView(mem: Mem, loc: Places, at: Tables, leaf: Places, held: Held, kernel: nat, free: set<nat>,
                        s: nat, va: Va, write: bool)
    requires VmOk(mem, loc, at, leaf, held, kernel, free) && s in held && VaOk(va) && va.i0 < KERNEL_START
    ensures UserFrame(mem, s, va, write) == Allowed(View(mem, 0, s, va), write)
    ensures UserFrame(mem, s, va, write).Some? ==>
              var f := UserFrame(mem, s, va, write).value; f in leaf && f !in loc && leaf[f] == Place(s, PathTo(va, 4))
  {
    hide VmOk;
    SpaceIsRoot(mem, loc, at, leaf, held, kernel, free, s);
    UserDown(mem, loc, at, leaf, held, kernel, free, s, 0, va);
    var e0 := Get(mem, s, va.i0);
    if !e0.present { return; }
    WalkDown(mem, loc, at, leaf, held, kernel, free, s, 0, va);
    OpenDown(mem, loc, at, leaf, held, kernel, free, s, 0, va);
    UserDown(mem, loc, at, leaf, held, kernel, free, e0.addr, 1, va);
    var e1 := Get(mem, e0.addr, va.i1);
    if !e1.present { return; }
    WalkDown(mem, loc, at, leaf, held, kernel, free, e0.addr, 1, va);
    OpenDown(mem, loc, at, leaf, held, kernel, free, e0.addr, 1, va);
    UserDown(mem, loc, at, leaf, held, kernel, free, e1.addr, 2, va);
    var e2 := Get(mem, e1.addr, va.i2);
    if !e2.present { return; }
    WalkDown(mem, loc, at, leaf, held, kernel, free, e1.addr, 2, va);
    OpenDown(mem, loc, at, leaf, held, kernel, free, e1.addr, 2, va);
    if Get(mem, e2.addr, va.i3).present {
      UserLeaf(mem, loc, at, leaf, held, kernel, free, e2.addr, va);
    }
  }

  /** In a well-formed memory the bytes of a process are distinct, and none of them is in a page table. */
  lemma OwnedIsDistinct(mem: Mem, loc: Places, at: Tables, leaf: Places, held: Held, kernel: nat, free: set<nat>,
                        s: nat, addr: nat, len: nat)
    requires VmOk(mem, loc, at, leaf, held, kernel, free) && s in held && addr + len <= USER_SPACE_END
    ensures Distinct(mem, s, addr, len)
    ensures forall x | addr <= x < addr + len && WalkUser(mem, s, x, false).Some? :: Behind(mem, s, x) / PAGE !in loc
  {
    hide VmOk, UserFrame, PageOf;
    forall x | addr <= x < addr + len && WalkUser(mem, s, x, false).Some? ensures Behind(mem, s, x) / PAGE !in loc {
      UserPage(x);
      UserFrameIsView(mem, loc, at, leaf, held, kernel, free, s, PageOf(x), false);
    }
    forall x, y | addr <= x < y < addr + len && WalkUser(mem, s, x, false).Some? && WalkUser(mem, s, y, false).Some?
      ensures WalkUser(mem, s, x, false) != WalkUser(mem, s, y, false)
    {
      UserPage(x);
      UserPage(y);
      UserFrameIsView(mem, loc, at, leaf, held, kernel, free, s, PageOf(x), false);
      UserFrameIsView(mem, loc, at, leaf, held, kernel, free, s, PageOf(y), false);
      PageOfUnique(x, y);
    }
  }

  /** One byte of a process: the walk of the source and the translation agree. */
  lemma ByteOnView(mem: Mem, s: nat, x: nat, write: bool)
    requires Process(mem, s) && x < USER_SPACE_END
    ensures WalkUser(mem, s, x, write) ==
              match Allowed(View(mem, 0, s, PageOf(x)), write)
              case None => None
              case Some(f) => Some(f * PAGE + x % PAGE)
    ensures WalkUser(mem, s, x, write).Some? ==> Behind(mem, s, x) == PhysOf(mem, s, x)
  {
    hide VmOk, UserFrame, View, PageOf;
    var loc, at, leaf, held, kernel, free :| VmOk(mem, loc, at, leaf, held, kernel, free) && s in held;
    UserPage(x);
    UserFrameIsView(mem, loc, at, leaf, held, kernel, free, s, PageOf(x), write);
    UserFrameIsView(mem, loc, at, leaf, held, kernel, free, s, PageOf(x), false);
  }

  lemma RangeOnView(mem: Mem, s: nat, addr: nat, len: nat, write: bool)
    ensures Process(mem, s) ==> (UserRange(mem, s, addr, len, write) <==> MappedRange(mem, s, addr, len, write))
  {
    hide Process, WalkUser, View, PageOf;
    if Process(mem, s) && len > 0 && addr + len <= USER_SPACE_END {
      forall x | addr <= x < addr + len
        ensures WalkUser(mem, s, x, write).Some? <==> Allowed(View(mem, 0, s, PageOf(x)), write).Some?
      {
        ByteOnView(mem, s, x, write);
      }
    }
  }

  lemma BehindOnView(mem: Mem, s: nat, addr: nat, len: nat, write: bool)
    requires Process(mem, s) && UserRange(mem, s, addr, len, write)
    ensures forall x | addr <= x < addr + len :: Behind(mem, s, x) == PhysOf(mem, s, x)
  {
    hide Process, WalkUser, Behind, PhysOf;
    forall x | addr <= x < addr + len ensures Behind(mem, s, x) == PhysOf(mem, s, x) {
      ByteOnView(mem, s, x, write);
    }
  }

  lemma ProcessDistinct(mem: Mem, s: nat, addr: nat, len: nat)
    requires Process(mem, s) && (len > 0 ==> addr + len <= USER_SPACE_END)
    ensures Distinct(mem, s, addr, len)
  {
    hide VmOk, WalkUser;
    var loc, at, leaf, held, kernel, free :| VmOk(mem, loc, at, leaf, held, kernel, free) && s in held;
    if len > 0 {
      OwnedIsDistinct(mem, loc, at, leaf, held, kernel, free, s, addr, len);
    }
  }

  lemma WroteOnView(mem: Mem, s: nat, dst: nat, src: seq<Byte>, data: Memory, data': Memory)
    requires UserRange(mem, s, dst, |src|, true) && Elsewhere(mem, s, dst, |src|, data, data')
    requires Distinct(mem, s, dst, |src|) ==> Stored(mem, s, dst, src, data')
    ensures Process(mem, s) ==> Holds(mem, s, dst, src, data') && SameOutside(mem, s, dst, |src|, data, data')
  {
    hide Process, WalkUser, Behind, PhysOf, ByteAt, Distinct;
    if Process(mem, s) {
      ProcessDistinct(mem, s, dst, |src|);
      BehindOnView(mem, s, dst, |src|, true);
    }
  }

  lemma ReadOnView(mem: Mem, s: nat, src: nat, bytes: seq<Byte>, data: Memory)
    requires UserRange(mem, s, src, |bytes|, false)
    requires forall i | 0 <= i < |bytes| :: bytes[i] == ByteAt(data, Behind(mem, s, src + i))
    ensures Process(mem, s) ==> Holds(mem, s, src, bytes, data)
  {
    hide Process, WalkUser, Behind, PhysOf, ByteAt;
    if Process(mem, s) {
      BehindOnView(mem, s, src, |bytes|, false);
    }
  }
}
