/** The kernel heap: a first-fit free list whose headers live in the free memory itself. */
module KernelHeap {
  import opened Wrappers
  import opened HeapBlocks

  const PAGE: nat := 0x1000
  const HEAP_START: nat := 0xffff_ffff_9000_0000
  const HEAP_MAX_SIZE: nat := 0x400_0000
  const HEAP_GROW_STEP: nat := 0x1_0000

  function Max(a: nat, b: nat): nat { if a < b then b else a }

  function Min(a: nat, b: nat): nat { if a < b then a else b }

  // --------------------------------------------------------------- alignment

  lemma DivParts(x: nat, d: nat)
    requires d > 0
    ensures x == x / d * d + x % d
  {
  }

  lemma MulMod(q: nat, d: nat)
    requires d > 0
    ensures q * d % d == 0
  {
    DivParts(q * d, d);
    var e := q - q * d / d;
    assert e * d == q * d % d;
    Between(e, d);
  }

  lemma Between(e: int, d: nat)
    requires d > 0 && 0 <= e * d < d
    ensures e == 0
  {
  }

  /** The next multiple of `align`. */
  function AlignUp(a: nat, align: nat): (r: nat)
    requires align > 0
    ensures a <= r < a + align && r % align == 0
  {
    DivParts(a + align - 1, align);
    MulMod((a + align - 1) / align, align);
    (a + align - 1) / align * align
  }

  const WORD: nat := 0x1_0000_0000_0000_0000

  /** `align_up` on 64-bit words whose sum wraps around. */
  function AlignUpWrapping(a: nat, align: nat): int
    requires align > 0
  {
    (a + align - 1) % WORD / align * align
  }

  lemma DivMinus(x: nat, w: nat, align: nat)
    requires align > 0 && w % align == 0 && w <= x
    ensures (x - w) / align * align == x / align * align - w
  {
    DivParts(x, align);
    DivParts(x - w, align);
    DivParts(w, align);
    var e := x / align - w / align - (x - w) / align;
    assert e * align == (x - w) % align - x % align;
    Within(e, align);
  }

  lemma Within(e: int, d: int)
    requires d > 0 && -d < e * d < d
    ensures e == 0
  {
  }

  /** In the heap's window the sum in `align_up` overflows exactly for alignments of 2^31 and more; a
      wrapping sum still gives the right padding before the aligned address. */
  lemma AlignUpOverflow(a: nat, align: nat)
    requires HEAP_START <= a <= HEAP_START + HEAP_MAX_SIZE && 0 < align < WORD && WORD % align == 0
    ensures align <= 0x4000_0000 ==> a + align - 1 < WORD && AlignUpWrapping(a, align) == AlignUp(a, align)
    ensures align >= 0x8000_0000 ==> a + align - 1 >= WORD && AlignUpWrapping(a, align) == AlignUp(a, align) - WORD
    ensures (AlignUpWrapping(a, align) - a) % WORD == AlignUp(a, align) - a
  {
    var x := a + align - 1;
    if x >= WORD {
      assert x % WORD == x - WORD;
      DivMinus(x, WORD, align);
    }
  }

  /** By how much the heap grows for a request, ending at `limit` so far: at least one step, up to the end
      of its window, and as far as `frames` go. */
  function Growth(limit: nat, minExtra: nat, frames: nat): nat
  {
    var left := if limit < HEAP_START + HEAP_MAX_SIZE then HEAP_START + HEAP_MAX_SIZE - limit else 0;
    Min(frames * PAGE, Min(Max(HEAP_GROW_STEP, AlignUp(minExtra, PAGE)), left))
  }

  lemma MulGrain(q: nat, align: nat)
    requires align % GRAIN == 0
    ensures q * align % GRAIN == 0
  {
    assert align == align / GRAIN * GRAIN;
    assert q * align == q * (align / GRAIN) * GRAIN;
    MulMod(q * (align / GRAIN), GRAIN);
  }

  lemma AlignGrain(a: nat, align: nat)
    requires align > 0 && align % GRAIN == 0
    ensures AlignUp(a, align) % GRAIN == 0
  {
    MulGrain((a + align - 1) / align, align);
  }

  // --------------------------------------------------------------- the list

  datatype Node = Node(size: nat, next: nat)

  type Headers = map<nat, Node>

  /** Address of block `i`, or null at the end. */
  function Addr(s: seq<Block>, i: nat): nat { if i < |s| then s[i].addr else 0 }

  /** The headers linked from `head` on are the blocks `s`. */
  ghost predicate Rep(mem: Headers, head: nat, s: seq<Block>)
  {
    head == Addr(s, 0) && forall i | 0 <= i < |s| ::
      s[i].addr in mem
      && mem[s[i].addr] == Node(s[i].size, Addr(s, i + 1))
  }

  /** Blocks of a canonical list start at different addresses, none of them null. */
  lemma AddrDistinct(s: seq<Block>, i: nat, j: nat)
    requires Canon(s) && i < |s| && j < |s|
    ensures s[i].addr == s[j].addr <==> i == j
    ensures s[i].addr > 0
  {
  }

  /** Index in the old list of block `i` of the new one, where it is an old block. */
  function OldIndex(s: seq<Block>, k: nat, b: Block, i: nat): nat
  {
    var f := From(s, k, b);
    if i < f then i else if i > f then To(s, k, b) + (i - f - 1) else 0
  }

  lemma InsertedOld(s: seq<Block>, k: nat, b: Block, i: nat)
    requires k <= |s| && i < |Inserted(s, k, b)| && i != From(s, k, b)
    ensures var m := OldIndex(s, k, b, i);
            && m < |s| && Inserted(s, k, b)[i] == s[m] && (m < From(s, k, b) || m >= To(s, k, b))
            && (i + 1 != From(s, k, b) ==> Addr(Inserted(s, k, b), i + 1) == Addr(s, m + 1))
            && (i + 1 == From(s, k, b) ==>
                 Addr(Inserted(s, k, b), i + 1) == Grown(s, k, b).addr
                 && m + 1 == From(s, k, b))
  {
  }

  lemma InsertedNew(s: seq<Block>, k: nat, b: Block)
    requires k <= |s|
    ensures var f := From(s, k, b); var r := Inserted(s, k, b);
            f < |r| && r[f] == Grown(s, k, b) && Addr(r, f + 1) == Addr(s, To(s, k, b))
            && (f > 0 ==> Addr(r, 0) == Addr(s, 0)) && (f == 0 ==> Addr(r, 0) == Grown(s, k, b).addr)
  {
  }

  /** Writing the merged header over the predecessor's. */
  lemma RepJoinPrev(mem: Headers, head: nat, s: seq<Block>, k: nat, b: Block)
    requires Canon(s) && Rep(mem, head, s) && JoinsPrev(s, k, b)
    ensures var g := Grown(s, k, b);
            g.addr == s[k - 1].addr
            && Rep(mem[g.addr := Node(g.size, Addr(s, To(s, k, b)))], head, Inserted(s, k, b))
  {
    var r, g := Inserted(s, k, b), Grown(s, k, b);
    var mem' := mem[g.addr := Node(g.size, Addr(s, To(s, k, b)))];
    assert g.addr == s[k - 1].addr && From(s, k, b) == k - 1;
    InsertedNew(s, k, b);
    hide Inserted, Grown, Canon, JoinsPrev, JoinsNext, From, To, OldIndex;
    forall i | 0 <= i < |r| ensures r[i].addr in mem' && mem'[r[i].addr] == Node(r[i].size, Addr(r, i + 1)) {
      if i != k - 1 {
        InsertedOld(s, k, b, i);
        AddrDistinct(s, OldIndex(s, k, b, i), k - 1);
      }
    }
  }

  /** The new header, and where the old ones are. */
  lemma NewAt(s: seq<Block>, k: nat, b: Block)
    requires Canon(s) && Slot(s, k, b.addr) && Outside(s, b) && Fit(b) && !JoinsPrev(s, k, b)
    ensures var r := Inserted(s, k, b);
            && Grown(s, k, b).addr == b.addr && From(s, k, b) == k && k < |r| && r[k] == Grown(s, k, b)
            && Addr(r, k + 1) == Addr(s, To(s, k, b)) && (k > 0 ==> Addr(r, 0) == Addr(s, 0))
               && (k == 0 ==> Addr(r, 0) == b.addr)
  {
  }

  /** Writing a new header as the head of the list. */
  lemma RepNewHead(mem: Headers, head: nat, s: seq<Block>, b: Block)
    requires Canon(s) && Rep(mem, head, s) && Slot(s, 0, b.addr) && Outside(s, b) && Fit(b)
    ensures Rep(mem[b.addr := Node(Grown(s, 0, b).size, Addr(s, To(s, 0, b)))], b.addr, Inserted(s, 0, b))
  {
    NewAt(s, 0, b);
    hide Inserted, Grown, Canon, JoinsPrev, JoinsNext, From, To, OldIndex, Slot, Outside;
    var r := Inserted(s, 0, b);
    var mem1 := mem[b.addr := Node(Grown(s, 0, b).size, Addr(s, To(s, 0, b)))];
    forall i | 0 <= i < |r| ensures r[i].addr in mem1 && mem1[r[i].addr] == Node(r[i].size, Addr(r, i + 1)) {
      if i != 0 {
        InsertedOld(s, 0, b, i);
        NotNew(s, 0, b, OldIndex(s, 0, b, i));
      }
    }
  }

  /** Writing a new header and linking it from its predecessor. */
  lemma RepNewBehind(mem: Headers, head: nat, s: seq<Block>, k: nat, b: Block)
    requires Canon(s) && Rep(mem, head, s) && Slot(s, k, b.addr) && Outside(s, b) && Fit(b) && !JoinsPrev(s, k, b)
             && k > 0
    ensures var p := s[k - 1].addr;
            var mem1 := mem[b.addr := Node(Grown(s, k, b).size, Addr(s, To(s, k, b)))];
            p in mem && p != b.addr && Rep(mem1[p := mem[p].(next := b.addr)], head, Inserted(s, k, b))
  {
    NewAt(s, k, b);
    assert s[k - 1].addr < b.addr;
    hide Inserted, Grown, Canon, JoinsPrev, JoinsNext, From, To, OldIndex, Slot, Outside;
    var r, p := Inserted(s, k, b), s[k - 1].addr;
    assert p in mem && mem[p] == Node(s[k - 1].size, Addr(s, k - 1 + 1));
    var mem2 := mem[b.addr := Node(Grown(s, k, b).size, Addr(s, To(s, k, b)))][p := mem[p].(next := b.addr)];
    forall i | 0 <= i < |r| ensures r[i].addr in mem2 && mem2[r[i].addr] == Node(r[i].size, Addr(r, i + 1)) {
      if i != k {
        InsertedOld(s, k, b, i);
        NotNew(s, k, b, OldIndex(s, k, b, i));
      }
    }
  }

  /** No old block starts where the new one does. */
  lemma NotNew(s: seq<Block>, k: nat, b: Block, m: nat)
    requires Canon(s) && Slot(s, k, b.addr) && Outside(s, b) && Fit(b) && m < |s|
    ensures s[m].addr != b.addr && (k > 0 && m != k - 1 ==> s[m].addr != s[k - 1].addr)
  {
    assert Fit(s[m]);
    assert Has(s[m], s[m].addr) && Has(b, b.addr);
    if k > 0 {
      AddrDistinct(s, m, k - 1);
    }
  }

  /** Unlinking block `k`. */
  lemma RepWithout(mem: Headers, head: nat, s: seq<Block>, k: nat)
    requires Canon(s) && Rep(mem, head, s) && k < |s|
    ensures k == 0 ==> Rep(mem, Addr(s, 1), Without(s, k))
    ensures k > 0 ==> s[k - 1].addr in mem && Rep(mem[s[k - 1].addr := mem[s[k - 1].addr].(next := Addr(s, k + 1))],
            head, Without(s, k))
  {
    hide Canon;
    var r := Without(s, k);
    var mem' := if k > 0 then mem[s[k - 1].addr := mem[s[k - 1].addr].(next := Addr(s, k + 1))] else mem;
    forall i | 0 <= i < |r| ensures r[i].addr in mem' && mem'[r[i].addr] == Node(r[i].size, Addr(r, i + 1)) {
      var m := if i < k then i else i + 1;
      assert r[i] == s[m];
      if k > 0 {
        AddrDistinct(s, m, k - 1);
      }
    }
  }

  // ------------------------------------------------------------ all the bytes

  /** No byte lies in two of the blocks. */
  ghost predicate Apart(s: seq<Block>) { forall i, j, x: nat | 0 <= i < j < |s| && Has(s[i], x) :: !Has(s[j], x) }

  /** Every mapped heap byte is free, on loan or lost, and only one of these. */
  ghost predicate Tiled(hi: nat, free: seq<Block>, live: seq<Block>, lost: seq<Block>)
  {
    && (forall x: nat :: HEAP_START <= x < hi <==> In(free, x) || In(live, x) || In(lost, x))
    && (forall x: nat | In(free, x) :: !In(live, x) && !In(lost, x))
    && (forall x: nat | In(live, x) :: !In(lost, x))
    && Apart(live) && Apart(lost)
  }

  ghost predicate Added(s: seq<Block>, s': seq<Block>, b: Block)
  {
    forall x: nat :: In(s', x) <==> In(s, x) || Has(b, x)
  }

  lemma ApartMore(s: seq<Block>, b: Block)
    requires Apart(s) && forall x: nat | Has(b, x) :: !In(s, x)
    ensures Apart(s + [b]) && forall x: nat :: In(s + [b], x) <==> In(s, x) || Has(b, x)
  {
    forall x: nat ensures In(s + [b], x) <==> In(s, x) || Has(b, x) {
      InCat(s, [b], x);
      InOne(b, x);
    }
    forall i, j, x: nat | 0 <= i < j < |s + [b]| && Has((s + [b])[i], x) ensures !Has((s + [b])[j], x) {
      assert i < |s| && (s + [b])[i] == s[i];
      assert In(s, x);
    }
  }

  lemma ApartPair(s: seq<Block>, i: nat, j: nat, x: nat)
    requires Apart(s) && i < |s| && j < |s| && i != j
    ensures !(Has(s[i], x) && Has(s[j], x))
  {
  }

  lemma ApartLess(s: seq<Block>, k: nat)
    requires Apart(s) && k < |s|
    ensures Apart(Without(s, k)) && forall x: nat :: In(Without(s, k), x) <==> In(s, x) && !Has(s[k], x)
  {
    var r := Without(s, k);
    forall i, j, x: nat | 0 <= i < j < |r| && Has(r[i], x) ensures !Has(r[j], x) {
      assert r[i] == s[if i < k then i else i + 1] && r[j] == s[if j < k then j else j + 1];
    }
    forall x: nat ensures In(r, x) <==> In(s, x) && !Has(s[k], x) {
      WithoutIn(s, k, x);
      if In(r, x) {
        var i :| 0 <= i < |r| && Has(r[i], x);
        var m := if i < k then i else i + 1;
        assert r[i] == s[m];
        ApartPair(s, m, k, x);
      }
    }
  }

  /** More heap. */
  lemma TiledGrow(hi: nat, free: seq<Block>, free': seq<Block>, live: seq<Block>, lost: seq<Block>, n: nat)
    requires Tiled(hi, free, live, lost) && HEAP_START <= hi && Added(free, free', Block(hi, n))
    ensures Tiled(hi + n, free', live, lost)
  {
  }

  /** A block on loan comes back. */
  lemma TiledReturn(hi: nat, free: seq<Block>, free': seq<Block>, live: seq<Block>, lost: seq<Block>, k: nat)
    requires Tiled(hi, free, live, lost) && k < |live| && Added(free, free', live[k])
    ensures Tiled(hi, free', Without(live, k), lost)
  {
    ApartLess(live, k);
    hide Apart, Without;
    forall x: nat | Has(live[k], x) ensures In(live, x) {
    }
    hide In;
    forall x: nat ensures HEAP_START <= x < hi <==> In(free', x) || In(Without(live, k), x) || In(lost, x) {
      assert In(free', x) <==> In(free, x) || Has(live[k], x);
      assert In(Without(live, k), x) <==> In(live, x) && !Has(live[k], x);
    }
    forall x: nat | In(free', x) ensures !In(Without(live, k), x) && !In(lost, x) {
      assert In(free', x) <==> In(free, x) || Has(live[k], x);
    }
  }

  // ---------------------------------------------------------------- the heap

  /** Whether block `b` has room for `size` bytes at a multiple of `align`. */
  predicate Room(b: Block, size: nat, align: nat)
    requires align > 0
  {
    AlignUp(b.addr, align) - b.addr + size <= b.size
  }

  class FreeList {
    var mem: Headers
    var head: nat
    var mappedEnd: nat
    var onLoan: nat
    var total: nat
    ghost var blocks: seq<Block>
    ghost var live: seq<Block>
    ghost var lost: seq<Block>

    /** The list in memory is the canonical list of free blocks. */
    ghost predicate Listed()
      reads this
    {
      Canon(blocks) && Rep(mem, head, blocks)
    }

    /** Insert `[addr, addr + size)` in address order, merging it with the neighbours it touches. */
    method Insert(addr: nat, size: nat)
      requires Listed() && Fit(Block(addr, size)) && Outside(blocks, Block(addr, size))
      modifies `mem, `head, `blocks
      ensures Listed() && Added(old(blocks), blocks, Block(addr, size)) && Sum(blocks) == Sum(old(blocks)) + size
    {
      hide Added;
      var prev, cur := 0, head;
      ghost var k := 0;
      while cur != 0 && cur < addr
        invariant k <= |blocks| && cur == Addr(blocks, k) && prev == (if k == 0 then 0 else blocks[k - 1].addr)
        invariant forall i | 0 <= i < k :: blocks[i].addr < addr
        decreases |blocks| - k
      {
        assert mem[blocks[k].addr] == Node(blocks[k].size, Addr(blocks, k + 1));
        prev := cur;
        cur := mem[cur].next;
        k := k + 1;
      }
      SlotFound(blocks, k, addr);
      ghost var b := Block(addr, size);
      InsertedAll(blocks, k, b);
      LinkInserted(prev, cur, k, addr, size);
    }

    /** The second half of `insert`: merge and link. */
    method LinkInserted(prev: nat, cur: nat, ghost k: nat, addr: nat, size: nat)
      requires Listed() && Fit(Block(addr, size)) && Outside(blocks, Block(addr, size)) && Slot(blocks, k, addr)
      requires cur == Addr(blocks, k) && prev == (if k == 0 then 0 else blocks[k - 1].addr)
      modifies `mem, `head, `blocks
      ensures Listed() && blocks == Inserted(old(blocks), k, Block(addr, size))
    {
      hide Canon, Rep, Slot, Outside, Fit, Inserted, Grown, JoinsNext, JoinsPrev, From, To, Addr;
      ghost var b := Block(addr, size);
      SlotIn(blocks, k, addr);
      InsertedCanon(blocks, k, b);
      Nodes(mem, head, blocks, k, b);
      var merged, next := size, cur;
      if cur != 0 && addr + size == cur {
        merged, next := size + mem[cur].size, mem[cur].next;
      }
      if prev != 0 && prev + mem[prev].size == addr {
        RepJoinPrev(mem, head, blocks, k, b);
        mem := mem[prev := Node(mem[prev].size + merged, next)];
        blocks := Inserted(blocks, k, b);
        return;
      }
      if prev == 0 {
        RepNewHead(mem, head, blocks, b);
      } else {
        RepNewBehind(mem, head, blocks, k, b);
      }
      blocks := Inserted(blocks, k, b);
      mem := mem[addr := Node(merged, next)];
      if prev == 0 {
        head := addr;
      } else {
        mem := mem[prev := mem[prev].(next := addr)];
      }
    }

    /** First fit: take the first block with room out of the list and give back what is left of it. */
    method FindAndRemove(size: nat, align: nat) returns (r: Option<nat>, ghost k: nat, ghost w: seq<Block>)
      requires Listed() && size >= HEADER && size % GRAIN == 0 && align > 0 && align % GRAIN == 0
      modifies `mem, `head, `blocks
      ensures Listed()
      ensures r.None? ==> blocks == old(blocks) && forall i | 0 <= i < |blocks| :: !Room(blocks[i], size, align)
      ensures r.Some? ==> && k < |old(blocks)| && Room(old(blocks)[k], size, align)
                          && (forall i | 0 <= i < k :: !Room(old(blocks)[i], size, align))
                          && r.value == AlignUp(old(blocks)[k].addr, align)
                          && Split(old(blocks), blocks, Block(r.value, size), w)
    {
      hide Room, Split;
      var prev, cur := 0, head;
      k, w := 0, [];
      while cur != 0
        invariant k <= |blocks| && cur == Addr(blocks, k) && prev == (if k == 0 then 0 else blocks[k - 1].addr)
        invariant forall i | 0 <= i < k :: !Room(blocks[i], size, align)
        invariant Listed() && blocks == old(blocks)
        decreases |blocks| - k
      {
        assert mem[blocks[k].addr] == Node(blocks[k].size, Addr(blocks, k + 1));
        var blockAddr, blockSize := cur, mem[cur].size;
        var allocStart := AlignUp(blockAddr, align);
        var padding := allocStart - blockAddr;
        RoomIs(blocks[k], size, align);
        if padding + size <= blockSize {
          w := TakeBlock(prev, cur, k, size, align);
          return Some(allocStart), k, w;
        }
        prev := cur;
        cur := mem[cur].next;
        k := k + 1;
      }
      EndReached(blocks, k);
      return None, k, w;
    }

    /** Unlink block `k` and put back what is left before and behind the allocation. */
    method TakeBlock(prev: nat, cur: nat, ghost k: nat, size: nat, align: nat) returns (ghost w: seq<Block>)
      requires Listed() && size >= HEADER && size % GRAIN == 0 && align > 0 && align % GRAIN == 0
      requires k < |blocks| && cur == blocks[k].addr && prev == (if k == 0 then 0 else blocks[k - 1].addr)
               && Room(blocks[k], size, align)
      modifies `mem, `head, `blocks
      ensures Listed() && Split(old(blocks), blocks, Block(AlignUp(cur, align), size), w)
    {
      hide Canon, Rep, Split, Outside, Room, Without, PutBack, Slivers, Fit;
      ghost var s := blocks;
      ghost var b := s[k];
      Leftovers(s, k, size, align);
      Unlink(prev, cur, k);
      ghost var s1 := blocks;
      var blockAddr, blockSize := cur, mem[cur].size;
      var allocStart := AlignUp(blockAddr, align);
      var padding := allocStart - blockAddr;
      GiveBack(blockAddr, padding);
      ghost var s2 := blocks;
      PostOutside(s1, s2, b, padding, size);
      GiveBack(allocStart + size, blockSize - padding - size);
      w := Slivers(b, padding, size);
      SplitFrom(s, k, s1, s2, blocks, padding, size);
    }

    /** Put back a part of a block, unless it is too small for a header. */
    method GiveBack(addr: nat, size: nat)
      requires Listed() && Outside(blocks, Block(addr, size)) && (size >= HEADER ==> Fit(Block(addr, size)))
      modifies `mem, `head, `blocks
      ensures Listed() && PutBack(old(blocks), blocks, Block(addr, size))
    {
      hide Canon, Rep, Outside, Fit, Added;
      if size >= HEADER {
        Insert(addr, size);
      }
    }

    /** Remove the node of block `k` from the links. Its header stays readable. */
    method Unlink(prev: nat, cur: nat, ghost k: nat)
      requires Listed() && k < |blocks| && cur == blocks[k].addr && prev == (if k == 0 then 0 else blocks[k - 1].addr)
      modifies `mem, `head, `blocks
      ensures Listed() && blocks == Without(old(blocks), k)
      ensures cur in mem && mem[cur].size == old(blocks)[k].size
    {
      RepWithout(mem, head, blocks, k);
      WithoutCanon(blocks, k);
      assert mem[blocks[k].addr] == Node(blocks[k].size, Addr(blocks, k + 1));
      if k > 0 {
        AddrDistinct(blocks, k, k - 1);
      }
      hide Canon, Without;
      var next := mem[cur].next;
      if prev == 0 {
        head := next;
      } else {
        mem := mem[prev := mem[prev].(next := next)];
      }
      blocks := Without(blocks, k);
    }

    // ----------------------------------------------------------- the allocator

    function Limit(): nat
      reads this
    {
      if mappedEnd == 0 then HEAP_START else mappedEnd
    }

    /** The heap's invariant: a canonical free list; every mapped byte free, on loan or lost, and only one of
        these; live blocks apart; and the counters exact. */
    ghost predicate Valid()
      reads this
    {
      && Listed() && Tiled(Limit(), blocks, live, lost)
      && (forall i | 0 <= i < |lost| :: lost[i].size == GRAIN)
      && onLoan == Sum(live) && total == Sum(blocks) + Sum(live) + Sum(lost) == Limit() - HEAP_START
      && Limit() <= HEAP_START + HEAP_MAX_SIZE && Limit() % PAGE == 0 && HEAP_START <= Limit()
    }

    constructor ()
      ensures Valid() && live == [] && lost == [] && blocks == []
    {
      mem, head, mappedEnd, onLoan, total := map[], 0, 0, 0, 0;
      blocks, live, lost := [], [], [];
    }

    /** Map more memory and add it to the free list; `frames` is what the frame allocator can still give. */
    method Grow(minExtra: nat, frames: nat) returns (ok: bool, ghost mapped: nat)
      requires Valid()
      modifies `mem, `head, `blocks, `mappedEnd, `total
      ensures Valid() && total == old(total) + mapped && mapped <= frames * PAGE && Limit() == old(Limit()) + mapped
      ensures ok <==> mapped > 0
      ensures mapped == Growth(old(Limit()), minExtra, frames)
      ensures if ok then Added(old(blocks), blocks, Block(old(Limit()), mapped)) else blocks == old(blocks)
    {
      hide Canon, Rep, Tiled, Added, Sum, AlignUp, Fit, Outside;
      if mappedEnd == 0 {
        mappedEnd := HEAP_START;
      }
      var remaining := HEAP_START + HEAP_MAX_SIZE - mappedEnd;
      if remaining == 0 { return false, 0; }
      var growBy := Max(HEAP_GROW_STEP, AlignUp(minExtra, PAGE));
      growBy := Min(growBy, remaining);
      Pages(minExtra, remaining);
      growBy := Min(AlignUp(growBy, PAGE), remaining / PAGE * PAGE);
      var start := mappedEnd;
      var n := MapFrames(growBy, frames);
      if n == 0 { return false, 0; }
      PastTheEnd(start, blocks, live, lost, n);
      FitPages(start, n);
      mappedEnd := start + n;
      total := total + n;
      ghost var before := blocks;
      Insert(start, n);
      TiledGrow(start, before, blocks, live, lost, n);
      return true, n;
    }

    /** Find room and record the loan. */
    method TryAlloc(size: nat, align: nat) returns (r: Option<nat>)
      requires Valid() && size >= HEADER && size % GRAIN == 0 && align > 0 && align % GRAIN == 0
      modifies `mem, `head, `blocks, `onLoan, `live, `lost
      ensures Valid()
      ensures r.Some? <==> exists i :: 0 <= i < |old(blocks)| && Room(old(blocks)[i], size, align)
      ensures r.Some? ==>
                live == old(live) + [Block(r.value, size)] && r.value % align == 0
                && Fit(Block(r.value, size))
      ensures r.None? ==> blocks == old(blocks) && live == old(live) && lost == old(lost)
      ensures |lost| <= |old(lost)| + 2
    {
      hide Canon, Rep, Tiled, Split, Room, Sum;
      ghost var k, w;
      r, k, w := FindAndRemove(size, align);
      if r.None? { return; }
      ghost var b := Block(r.value, size);
      Loan(old(blocks), k, size, align);
      SplitFacts(old(blocks), blocks, b, w, lost);
      TiledSplit(Limit(), old(blocks), blocks, live, lost, b, w);
      SumCat(live, [b]);
      SumOne(b);
      SumCat(lost, w);
      onLoan := onLoan + size;
      live := live + [b];
      lost := lost + w;
    }

    method Alloc(layout: Layout, frames: nat) returns (r: Option<nat>, ghost mapped: nat)
      requires Valid()
      modifies this
      ensures Valid() && total == old(total) + mapped && mapped <= frames * PAGE && Limit() == old(Limit()) + mapped
      ensures |lost| <= |old(lost)| + 2
      ensures r.Some? ==>
                live == old(live) + [Block(r.value, SizeOf(layout))] && r.value % AlignOf(layout) == 0
                && Fit(Block(r.value, SizeOf(layout)))
      ensures mapped == if exists i :: 0 <= i < |old(blocks)| && Room(old(blocks)[i], SizeOf(layout),
              AlignOf(layout)) then 0
                        else Growth(old(Limit()), SizeOf(layout) + AlignOf(layout), frames)
      ensures r.None? ==> !exists i :: 0 <= i < |old(blocks)| && Room(old(blocks)[i], SizeOf(layout), AlignOf(layout))
      ensures r.None? ==> live == old(live) && lost == old(lost) && mapped < SizeOf(layout) + AlignOf(layout)
                          && (forall i | 0 <= i < |blocks| :: !Room(blocks[i], SizeOf(layout), AlignOf(layout)))
    {
      hide Canon, Rep, Tiled, Room, Sum, AlignUp, Added, Fit, Growth;
      var size, align := SizeOf(layout), AlignOf(layout);
      Adjusted(layout);
      mapped := 0;
      r := TryAlloc(size, align);
      if r.Some? { return; }
      ghost var before, hi := blocks, Limit();
      var ok;
      ok, mapped := Grow(size + align, frames);
      if !ok { return; }
      ghost var grown := blocks;
      r := TryAlloc(size, align);
      if r.None? {
        NoRoomIn(before, grown, hi, mapped, size, align);
      }
    }

    /** Give a block back. It must be on loan, with the same layout. */
    method Dealloc(addr: nat, layout: Layout, ghost k: nat)
      requires Valid() && k < |live| && live[k] == Block(addr, SizeOf(layout)) && Fit(live[k])
      modifies this
      ensures Valid() && live == Without(old(live), k) && lost == old(lost) && total == old(total)
      ensures Limit() == old(Limit())
      ensures Added(old(blocks), blocks, old(live)[k])
    {
      hide Canon, Rep, Tiled, Sum, Added, Fit, Without;
      var size := SizeOf(layout);
      WithoutSum(live, k);
      LiveOutside(Limit(), blocks, live, lost, k);
      ghost var before := blocks;
      onLoan := SaturatingSub(onLoan, size);
      Insert(addr, size);
      TiledReturn(Limit(), before, blocks, live, lost, k);
      live := Without(live, k);
    }
  }

  lemma SlotIn(s: seq<Block>, k: nat, addr: nat)
    requires Slot(s, k, addr)
    ensures k <= |s|
  {
  }

  lemma SlotFound(s: seq<Block>, k: nat, addr: nat)
    requires Canon(s) && k <= |s| && (forall i | 0 <= i < k :: s[i].addr < addr) && (k < |s| ==> s[k].addr >= addr)
    ensures Slot(s, k, addr)
  {
  }

  lemma InsertedAll(s: seq<Block>, k: nat, b: Block)
    requires k <= |s|
    ensures Added(s, Inserted(s, k, b), b) && Sum(Inserted(s, k, b)) == Sum(s) + b.size
  {
    hide In, Inserted;
    InsertedSum(s, k, b);
    forall x: nat ensures In(Inserted(s, k, b), x) <==> In(s, x) || Has(b, x) {
      InsertedIn(s, k, b, x);
    }
  }

  /** What the code reads from the two neighbours, and what it makes of it. */
  lemma Nodes(mem: Headers, head: nat, s: seq<Block>, k: nat, b: Block)
    requires Canon(s) && Rep(mem, head, s) && k <= |s|
    ensures var cur := Addr(s, k); var prev := if k == 0 then 0 else s[k - 1].addr;
            && (cur != 0 ==> cur in mem) && (prev != 0 <==> k > 0)
               && (prev != 0 ==> prev in mem && mem[prev].size == s[k - 1].size)
            && (cur != 0 && End(b) == cur <==> JoinsNext(s, k, b))
            && (JoinsNext(s, k, b) ==> mem[cur].next == Addr(s, To(s, k, b)))
            && (!JoinsNext(s, k, b) ==> cur == Addr(s, To(s, k, b)))
            && (prev != 0 && prev + mem[prev].size == b.addr <==> JoinsPrev(s, k, b))
            && Grown(s, k, b).size == (if JoinsPrev(s, k, b) then mem[prev].size
               else 0) + b.size + (if JoinsNext(s, k, b) then mem[cur].size else 0)
            && Grown(s, k, b).addr == if JoinsPrev(s, k, b) then prev else b.addr
  {
  }

  lemma RoomIs(b: Block, size: nat, align: nat)
    requires align > 0
    ensures Room(b, size, align) <==> AlignUp(b.addr, align) - b.addr + size <= b.size
  {
  }

  lemma EndReached(s: seq<Block>, k: nat)
    requires Canon(s) && k <= |s| && Addr(s, k) == 0
    ensures k == |s|
  {
  }

  // ------------------------------------------------- what is left of a block

  function Pre(b: Block, padding: nat): Block { Block(b.addr, padding) }

  function Post(b: Block, padding: nat, size: nat): Block
    requires padding + size <= b.size
  {
    Block(b.addr + padding + size, b.size - padding - size)
  }

  /** The parts too small for a header. */
  function Slivers(b: Block, padding: nat, size: nat): seq<Block>
    requires padding + size <= b.size
  {
    (if 0 < padding < HEADER then [Pre(b, padding)] else []) +
    (if 0 < b.size - padding - size < HEADER then [Post(b, padding, size)] else [])
  }

  /** The list `s` is now `s'`, the allocation `b` and the slivers `w`, all apart. */
  ghost predicate Split(s: seq<Block>, s': seq<Block>, b: Block, w: seq<Block>)
  {
    && (forall x: nat :: In(s, x) <==> In(s', x) || Has(b, x) || In(w, x))
    && (forall x: nat | In(s', x) :: !Has(b, x) && !In(w, x))
    && (forall x: nat | Has(b, x) :: !In(w, x))
    && Apart(w) && |w| <= 2 && (forall i | 0 <= i < |w| :: w[i].size == GRAIN)
    && Sum(s) == Sum(s') + b.size + Sum(w)
  }

  lemma Leftovers(s: seq<Block>, k: nat, size: nat, align: nat)
    requires Canon(s) && k < |s| && size >= HEADER && size % GRAIN == 0 && align > 0 && align % GRAIN == 0
             && Room(s[k], size, align)
    ensures var b := s[k]; var padding := AlignUp(b.addr, align) - b.addr;
            && padding % GRAIN == 0 && b.size % GRAIN == 0 && padding + size <= b.size
            && Outside(Without(s, k), b) && Outside(Without(s, k), Pre(b, padding))
            && (padding >= HEADER ==> Fit(Pre(b, padding)))
            && (b.size - padding - size >= HEADER ==> Fit(Post(b, padding, size)))
  {
    var b := s[k];
    var padding := AlignUp(b.addr, align) - b.addr;
    assert Fit(b);
    AlignGrain(b.addr, align);
    WithoutOutside(s, k);
    hide Canon, Without, AlignUp, In;
    FitParts(b, padding, size);
    forall x | Has(Pre(b, padding), x) ensures !In(Without(s, k), x) {
      assert Has(b, x);
    }
  }

  lemma FitParts(b: Block, padding: nat, size: nat)
    requires Fit(b) && (b.addr + padding) % GRAIN == 0 && size % GRAIN == 0 && padding + size <= b.size
    ensures padding % GRAIN == 0 && b.size % GRAIN == 0
    ensures padding >= HEADER ==> Fit(Pre(b, padding))
    ensures b.size - padding - size >= HEADER ==> Fit(Post(b, padding, size))
  {
  }

  lemma PostOutside(s1: seq<Block>, s2: seq<Block>, b: Block, padding: nat, size: nat)
    requires Outside(s1, b) && padding + size <= b.size && PutBack(s1, s2, Pre(b, padding))
    ensures Outside(s2, Post(b, padding, size))
  {
  }

  lemma SliverIn(b: Block, padding: nat, size: nat, x: nat)
    requires padding + size <= b.size
    ensures In(Slivers(b, padding, size), x) <==>
            (padding < HEADER && Has(Pre(b, padding), x))
              || (b.size - padding - size < HEADER && Has(Post(b, padding, size), x))
  {
    var p := if 0 < padding < HEADER then [Pre(b, padding)] else [];
    var q := if 0 < b.size - padding - size < HEADER then [Post(b, padding, size)] else [];
    InCat(p, q, x);
    InOne(Pre(b, padding), x);
    InOne(Post(b, padding, size), x);
  }

  lemma SliverFacts(b: Block, padding: nat, size: nat)
    requires padding + size <= b.size && padding % GRAIN == 0 && size % GRAIN == 0 && b.size % GRAIN == 0
    ensures var w := Slivers(b, padding, size);
            && Apart(w) && |w| <= 2 && (forall i | 0 <= i < |w| :: w[i].size == GRAIN)
            && Sum(w) == (if padding < HEADER then padding else 0)
               + (if b.size - padding - size < HEADER then b.size - padding - size else 0)
  {
    hide Sum, Apart;
    SliverSum(b, padding, size);
    SliverSizes(b, padding, size);
    SliverApart(b, padding, size);
  }

  lemma SliverSizes(b: Block, padding: nat, size: nat)
    requires padding + size <= b.size && padding % GRAIN == 0 && size % GRAIN == 0 && b.size % GRAIN == 0
    ensures forall i | 0 <= i < |Slivers(b, padding, size)| :: Slivers(b, padding, size)[i].size == GRAIN
  {
  }

  lemma SliverApart(b: Block, padding: nat, size: nat)
    requires padding + size <= b.size
    ensures Apart(Slivers(b, padding, size))
  {
  }

  lemma SliverSum(b: Block, padding: nat, size: nat)
    requires padding + size <= b.size
    ensures Sum(Slivers(b, padding, size)) == (if padding < HEADER then padding
            else 0) + (if b.size - padding - size < HEADER then b.size - padding - size else 0)
  {
    var p := if 0 < padding < HEADER then [Pre(b, padding)] else [];
    var q := if 0 < b.size - padding - size < HEADER then [Post(b, padding, size)] else [];
    SumCat(p, q);
    SumOne(Pre(b, padding));
    SumOne(Post(b, padding, size));
  }

  /** The bytes of a block are those before, in and behind the allocation. */
  lemma Parts(b: Block, padding: nat, size: nat, x: nat)
    requires padding + size <= b.size
    ensures Has(b, x) <==>
              Has(Pre(b, padding), x) || Has(Block(b.addr + padding, size), x)
              || Has(Post(b, padding, size), x)
  {
  }

  ghost predicate PutBack(s: seq<Block>, s': seq<Block>, b: Block)
  {
    if b.size >= HEADER then Added(s, s', b) && Sum(s') == Sum(s) + b.size else s' == s
  }

  lemma PutBackIn(s: seq<Block>, s': seq<Block>, b: Block, x: nat)
    requires PutBack(s, s', b)
    ensures In(s', x) <==> In(s, x) || (b.size >= HEADER && Has(b, x))
  {
  }

  lemma SplitBytes(s: seq<Block>, k: nat, s2: seq<Block>, s3: seq<Block>, padding: nat, size: nat, x: nat)
    requires k < |s| && padding + size <= s[k].size && Outside(Without(s, k), s[k])
    requires PutBack(Without(s, k), s2, Pre(s[k], padding)) && PutBack(s2, s3, Post(s[k], padding, size))
    ensures var b := Block(s[k].addr + padding, size); var w := Slivers(s[k], padding, size);
            && (In(s, x) <==> In(s3, x) || Has(b, x) || In(w, x))
            && (In(s3, x) ==> !Has(b, x) && !In(w, x)) && (Has(b, x) ==> !In(w, x))
  {
    hide In, Without, Slivers, PutBack;
    WithoutIn(s, k, x);
    PutBackIn(Without(s, k), s2, Pre(s[k], padding), x);
    PutBackIn(s2, s3, Post(s[k], padding, size), x);
    SliverIn(s[k], padding, size, x);
    Parts(s[k], padding, size, x);
  }

  lemma PutBackSum(s: seq<Block>, s': seq<Block>, b: Block)
    requires PutBack(s, s', b)
    ensures Sum(s') == Sum(s) + if b.size >= HEADER then b.size else 0
  {
  }

  lemma SplitFrom(s: seq<Block>, k: nat, s1: seq<Block>, s2: seq<Block>, s3: seq<Block>, padding: nat, size: nat)
    requires k < |s| && s1 == Without(s, k) && Outside(s1, s[k]) && padding + size <= s[k].size
    requires padding % GRAIN == 0 && size % GRAIN == 0 && s[k].size % GRAIN == 0
    requires PutBack(s1, s2, Pre(s[k], padding)) && PutBack(s2, s3, Post(s[k], padding, size))
    ensures Split(s, s3, Block(s[k].addr + padding, size), Slivers(s[k], padding, size))
  {
    hide In, Without, Slivers, PutBack, Apart, Outside, Sum, Has;
    var b, w := Block(s[k].addr + padding, size), Slivers(s[k], padding, size);
    WithoutSum(s, k);
    PutBackSum(s1, s2, Pre(s[k], padding));
    PutBackSum(s2, s3, Post(s[k], padding, size));
    SliverFacts(s[k], padding, size);
    forall x: nat
      ensures In(s, x) <==> In(s3, x) || Has(b, x) || In(w, x)
      ensures In(s3, x) ==> !Has(b, x) && !In(w, x)
      ensures Has(b, x) ==> !In(w, x)
    {
      SplitBytes(s, k, s2, s3, padding, size, x);
    }
  }

  /** Map page after page, as long as there are frames. */
  method MapFrames(growBy: nat, frames: nat) returns (n: nat)
    requires growBy % PAGE == 0
    ensures n == Min(frames * PAGE, growBy) && n % PAGE == 0
  {
    n := 0;
    var left: nat := frames;
    while n < growBy && left > 0
      invariant 0 <= n <= growBy && n % PAGE == 0 && n + left * PAGE == frames * PAGE
      decreases left
    {
      n, left := n + PAGE, left - 1;
    }
  }

  /** Sizes and limits are whole pages. */
  lemma Pages(minExtra: nat, remaining: nat)
    requires remaining % PAGE == 0
    ensures var g := Min(Max(HEAP_GROW_STEP, AlignUp(minExtra, PAGE)), remaining);
            g % PAGE == 0 && Min(AlignUp(g, PAGE), remaining / PAGE * PAGE) == g
  {
  }

  lemma FitPages(start: nat, n: nat)
    requires start >= HEAP_START && start % PAGE == 0 && n % PAGE == 0 && n > 0
    ensures Fit(Block(start, n))
  {
    PageGrain(start);
    PageGrain(n);
  }

  lemma PageGrain(n: nat)
    requires n % PAGE == 0
    ensures n % GRAIN == 0 && (n > 0 ==> n >= PAGE)
  {
    var q := n / PAGE;
    assert n == q * 512 * GRAIN;
  }

  lemma PastTheEnd(hi: nat, free: seq<Block>, live: seq<Block>, lost: seq<Block>, n: nat)
    requires Tiled(hi, free, live, lost)
    ensures Outside(free, Block(hi, n))
  {
  }

  // ----------------------------------------------------------------- layouts

  function Pow2(n: nat): (p: nat)
    ensures p > 0
  {
    if n == 0 then 1 else 2 * Pow2(n - 1)
  }

  /** What a caller asks for; alignments are powers of two. */
  datatype Layout = Layout(size: nat, alignShift: nat)

  function AlignOf(l: Layout): (a: nat)
    ensures a > 0
  {
    Max(Pow2(l.alignShift), GRAIN)
  }

  function SizeOf(l: Layout): nat { AlignUp(Max(l.size, HEADER), GRAIN) }

  lemma {:induction false} Pow2Grain(n: nat)
    ensures Pow2(n) >= GRAIN ==> Pow2(n) % GRAIN == 0
  {
    if n > 3 {
      Pow2Grain(n - 1);
      Pow2Big(n - 1);
      assert Pow2(n) == 2 * Pow2(n - 1);
    } else {
      assert Pow2(1) == 2 && Pow2(2) == 4 && Pow2(3) == 8;
    }
  }

  lemma {:induction false} Pow2Big(n: nat)
    requires n >= 3
    ensures Pow2(n) >= GRAIN
  {
    if n > 3 {
      Pow2Big(n - 1);
    } else {
      assert Pow2(1) == 2 && Pow2(2) == 4 && Pow2(3) == 8;
    }
  }

  /** `adjust`: room for a header, and alignment for one. */
  lemma Adjusted(l: Layout)
    ensures SizeOf(l) >= HEADER && SizeOf(l) % GRAIN == 0 && AlignOf(l) % GRAIN == 0 && SizeOf(l) >= l.size
            && AlignOf(l) >= Pow2(l.alignShift)
    ensures SizeOf(l) < l.size + GRAIN || SizeOf(l) == HEADER
    ensures AlignOf(l) == Pow2(l.alignShift) || AlignOf(l) == GRAIN > Pow2(l.alignShift)
  {
    Pow2Grain(l.alignShift);
  }

  function SaturatingSub(a: nat, b: nat): nat { if a >= b then a - b else 0 }

  // ------------------------------------------------------------------ lending

  lemma SplitFacts(s: seq<Block>, s': seq<Block>, b: Block, w: seq<Block>, lost: seq<Block>)
    requires Split(s, s', b, w) && forall i | 0 <= i < |lost| :: lost[i].size == GRAIN
    ensures Sum(s) == Sum(s') + b.size + Sum(w) && |w| <= 2
    ensures forall i | 0 <= i < |lost + w| :: (lost + w)[i].size == GRAIN
  {
  }

  lemma Loan(s: seq<Block>, k: nat, size: nat, align: nat)
    requires Canon(s) && k < |s| && align > 0 && align % GRAIN == 0 && size >= HEADER && size % GRAIN == 0
    ensures AlignUp(s[k].addr, align) % align == 0 && Fit(Block(AlignUp(s[k].addr, align), size))
  {
    assert Fit(s[k]);
    AlignGrain(s[k].addr, align);
  }

  lemma ApartCat(s: seq<Block>, t: seq<Block>)
    requires Apart(s) && Apart(t) && forall x: nat | In(s, x) :: !In(t, x)
    ensures Apart(s + t)
  {
    var r := s + t;
    forall i, j, x: nat | 0 <= i < j < |r| && Has(r[i], x) ensures !Has(r[j], x) {
      assert i < |s| ==> r[i] == s[i];
      assert i >= |s| ==> r[i] == t[i - |s|];
      assert j < |s| ==> r[j] == s[j];
      assert j >= |s| ==> r[j] == t[j - |s|];
      if i < |s| <= j {
        assert In(s, x);
        assert !In(t, x);
      }
    }
  }

  lemma TiledSplit(hi: nat, free: seq<Block>, free': seq<Block>, live: seq<Block>, lost: seq<Block>, b: Block,
                   w: seq<Block>)
    requires Tiled(hi, free, live, lost) && Split(free, free', b, w)
    ensures Tiled(hi, free', live + [b], lost + w)
  {
    hide In, Apart, Sum;
    forall x: nat | Has(b, x) ensures !In(live, x) && !In(lost, x) {
      assert In(free, x);
    }
    ApartMore(live, b);
    forall x: nat | In(lost, x) ensures !In(w, x) {
      assert In(w, x) ==> In(free, x);
    }
    ApartCat(lost, w);
    forall x: nat
      ensures HEAP_START <= x < hi <==> In(free', x) || In(live + [b], x) || In(lost + w, x)
      ensures In(free', x) ==> !In(live + [b], x) && !In(lost + w, x)
      ensures In(live + [b], x) ==> !In(lost + w, x)
    {
      InCat(lost, w, x);
      assert In(live + [b], x) <==> In(live, x) || Has(b, x);
      assert In(free, x) <==> In(free', x) || Has(b, x) || In(w, x);
    }
  }

  lemma LiveOutside(hi: nat, free: seq<Block>, live: seq<Block>, lost: seq<Block>, k: nat)
    requires Tiled(hi, free, live, lost) && k < |live|
    ensures Outside(free, live[k])
  {
  }

  /** If the grown heap still has no room, not enough was mapped. */
  lemma NoRoomIn(before: seq<Block>, grown: seq<Block>, hi: nat, mapped: nat, size: nat, align: nat)
    requires Canon(grown) && mapped > 0 && align > 0 && Added(before, grown, Block(hi, mapped))
    requires forall i | 0 <= i < |grown| :: !Room(grown[i], size, align)
    ensures mapped < size + align
  {
    assert Has(Block(hi, mapped), hi) && Has(Block(hi, mapped), hi + mapped - 1);
    assert In(grown, hi);
    var i :| 0 <= i < |grown| && Has(grown[i], hi);
    WholeIn(grown, i, hi, mapped, before);
    assert !Room(grown[i], size, align);
  }

  /** A run of bytes of a canonical list lies in one block. */
  lemma WholeIn(s: seq<Block>, i: nat, lo: nat, n: nat, before: seq<Block>)
    requires Canon(s) && i < |s| && Has(s[i], lo) && n > 0 && Added(before, s, Block(lo, n))
    ensures lo + n <= End(s[i])
  {
    var x := End(s[i]);
    NotBehind(s, i);
    assert Has(Block(lo, n), x) ==> In(s, x);
  }

  lemma NotBehind(s: seq<Block>, i: nat)
    requires Canon(s) && i < |s|
    ensures !In(s, End(s[i]))
  {
  }

  // -------------------------------------------------------------------- runs

  datatype Op = DoAlloc(layout: Layout, frames: nat) | DoDealloc(i: nat)

  /** What the caller keeps of each block: its address and layout. */
  ghost predicate Kept(h: FreeList, loans: seq<(nat, Layout)>)
    reads h
  {
    && |loans| == |h.live|
    && forall i | 0 <= i < |loans| ::
         h.live[i] == Block(loans[i].0, SizeOf(loans[i].1)) && Fit(h.live[i])
         && loans[i].0 % AlignOf(loans[i].1) == 0
  }

  /** What a step of a run is judged by: the free blocks and the end of the mapped window. */
  datatype Moment = Moment(blocks: seq<Block>, limit: nat)

  ghost function Now(h: FreeList): Moment
    reads h
  {
    Moment(h.blocks, h.Limit())
  }

  ghost predicate AnyRoom(blocks: seq<Block>, layout: Layout)
  {
    exists i :: 0 <= i < |blocks| && Room(blocks[i], SizeOf(layout), AlignOf(layout))
  }

  /** What one request does: an allocation maps memory exactly if no free block has room, and fails exactly if
      none has room after that; a block given back is free again. */
  ghost predicate Served(op: Op, a: Moment, loans: seq<(nat, Layout)>, b: Moment, loans': seq<(nat, Layout)>,
                         r: Option<nat>)
  {
    match op
    case DoAlloc(layout, frames) =>
      && b.limit == a.limit + (if AnyRoom(a.blocks, layout) then 0
                               else Growth(a.limit, SizeOf(layout) + AlignOf(layout), frames))
      && (r.Some? ==> loans' == loans + [(r.value, layout)])
      && (r.None? ==> loans' == loans && !AnyRoom(b.blocks, layout) && !AnyRoom(a.blocks, layout))
    case DoDealloc(i) =>
      && r.None? && b.limit == a.limit
      && (if i < |loans|
          then loans' == loans[..i] + loans[i + 1..]
               && Added(a.blocks, b.blocks, Block(loans[i].0, SizeOf(loans[i].1)))
          else loans' == loans && b == a)
  }

  /** One request; giving back a block that is not on loan is not a request. */
  method Serve(h: FreeList, op: Op, loans: seq<(nat, Layout)>) returns (loans': seq<(nat, Layout)>, r: Option<nat>)
    requires h.Valid() && Kept(h, loans)
    modifies h
    ensures h.Valid() && Kept(h, loans') && Served(op, old(Now(h)), loans, Now(h), loans', r)
  {
    hide Canon, Rep, Tiled, Sum, Room, Fit, SizeOf, AlignOf, Added, Growth;
    loans', r := loans, None;
    match op {
      case DoAlloc(layout, frames) =>
        ghost var mapped;
        r, mapped := h.Alloc(layout, frames);
        if r.Some? {
          loans' := loans + [(r.value, layout)];
        }
      case DoDealloc(i) =>
        if i < |loans| {
          h.Dealloc(loans[i].0, loans[i].1, i);
          loans' := loans[..i] + loans[i + 1..];
        }
    }
  }

  /** Any run of allocations and frees keeps the heap's invariant, and every request is served; every block on
      loan stays aligned, apart from all others, and where it was. */
  method Run(h: FreeList, ops: seq<Op>, start: seq<(nat, Layout)>)
      returns (loans: seq<(nat, Layout)>, results: seq<Option<nat>>, ghost moments: seq<Moment>,
               ghost held: seq<seq<(nat, Layout)>>)
    requires h.Valid() && Kept(h, start)
    modifies h
    ensures h.Valid() && Kept(h, loans) && |results| == |ops| && |moments| == |held| == |ops| + 1
    ensures moments[0] == old(Now(h)) && held[0] == start && moments[|ops|] == Now(h) && held[|ops|] == loans
    ensures forall i | 0 <= i < |ops| :: Served(ops[i], moments[i], held[i], moments[i + 1], held[i + 1], results[i])
  {
    hide Canon, Rep, Tiled, Sum, Room, Fit, SizeOf, AlignOf, Added, Served, Kept;
    loans, results, moments, held := start, [], [Now(h)], [start];
    for n := 0 to |ops|
      invariant h.Valid() && Kept(h, loans) && |results| == n && |moments| == |held| == n + 1
      invariant moments[0] == old(Now(h)) && held[0] == start && moments[n] == Now(h) && held[n] == loans
      invariant forall i | 0 <= i < n :: Served(ops[i], moments[i], held[i], moments[i + 1], held[i + 1], results[i])
    {
      var r;
      loans, r := Serve(h, ops[n], loans);
      results, moments, held := results + [r], moments + [Now(h)], held + [loans];
    }
  }
}
