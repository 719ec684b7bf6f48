/** Page-table entries of the x86-64 4-level format (Intel SDM volume 3A, section 4.5), field by field. */
module PageEntries {
  import opened Wrappers

  const ENTRIES: nat := 512

  /** One 64-bit entry. `addr` is bits 12 to 51, `low` bits 8 to 11, `high` bits 52 to 62. Bit 7 is the
      page-size bit above the last level and the PAT bit in it. */
  datatype Word = Word(
    present: bool, writable: bool, user: bool, pwt: bool, pcd: bool, accessed: bool, dirty: bool, bit7: bool,
    low: nat, addr: nat, high: nat, nx: bool)

  const ZERO := Word(false, false, false, false, false, false, false, false, 0, 0, 0, false)

  /** Everything a mapping says besides where it leads: permissions, memory type, status and ignored bits. */
  datatype Attrs = Attrs(
    writable: bool, user: bool, nx: bool,
    pat: bool, pcd: bool, pwt: bool,
    accessed: bool, dirty: bool, low: nat, high: nat)

  /** One virtual page's translation. */
  datatype Mapping = Mapping(frame: nat, attrs: Attrs)

  /** A virtual page as its four table indices. */
  datatype Va = Va(i0: nat, i1: nat, i2: nat, i3: nat)

  predicate VaOk(va: Va) { va.i0 < ENTRIES && va.i1 < ENTRIES && va.i2 < ENTRIES && va.i3 < ENTRIES }

  function Ix(va: Va, k: nat): nat
  {
    if k == 0 then va.i0 else if k == 1 then va.i1 else if k == 2 then va.i2 else va.i3
  }

  /** The page that holds virtual address `virt`. */
  function PageOf(virt: nat): (va: Va)
    ensures VaOk(va)
  {
    Va(virt / 0x80_0000_0000 % 512, virt / 0x4000_0000 % 512, virt / 0x20_0000 % 512, virt / 0x1000 % 512)
  }

  /** 48-bit addresses with the same indices lie in the same 4 KiB page. */
  lemma PageOfUnique(a: nat, b: nat)
    requires a < 0x1_0000_0000_0000 && b < 0x1_0000_0000_0000
    ensures PageOf(a) == PageOf(b) <==> a / 0x1000 == b / 0x1000
  {
    PageNumber(a);
    PageNumber(b);
  }

  lemma PageNumber(a: nat)
    requires a < 0x1_0000_0000_0000
    ensures var va := PageOf(a);
            a / 0x1000 == va.i0 * 0x800_0000 + va.i1 * 0x4_0000 + va.i2 * 0x200 + va.i3
  {
    assert a / 0x4000_0000 / 512 == a / 0x80_0000_0000;
    assert a / 0x20_0000 / 512 == a / 0x4000_0000;
    assert a / 0x1000 / 512 == a / 0x20_0000;
  }

  /** Frames covered by a leaf at level `k`: 1 GiB, 2 MiB, 4 KiB. */
  function Span(k: nat): nat { if k == 1 then 0x4_0000 else if k == 2 then 0x200 else 1 }

  /** Frame number of the first frame of a leaf at level `k`: the address bits above the page offset. */
  function BaseFrame(k: nat, w: Word): nat { w.addr / Span(k) * Span(k) }

  /** Offset, in frames, of the page `va` inside a leaf at level `k`. */
  function FrameOffset(k: nat, va: Va): nat
  {
    if k == 1 then va.i2 * 0x200 + va.i3 else if k == 2 then va.i3 else 0
  }

  /** The PAT bit of a leaf: bit 7 of a 4 KiB entry, bit 12 of a larger one. */
  function Pat(k: nat, w: Word): bool { if k == 3 then w.bit7 else w.addr % 2 == 1 }

  function LeafMapping(k: nat, w: Word, va: Va): Mapping
  {
    Mapping(BaseFrame(k, w) + FrameOffset(k, va),
            Attrs(w.writable, w.user, w.nx, Pat(k, w), w.pcd, w.pwt, w.accessed, w.dirty, w.low, w.high))
  }

  /** Whether a present entry at level `k` maps a page rather than pointing to a table. */
  predicate IsLeaf(k: nat, w: Word) { w.present && (k == 3 || (k > 0 && w.bit7)) }

  predicate IsTable(k: nat, w: Word) { w.present && k < 3 && (k == 0 || !w.bit7) }

  /** The entry that `child_table` and the splits write: a table at `frame`, open to everything below. */
  function TableWord(frame: nat): Word { ZERO.(present := true, writable := true, user := true, addr := frame) }

  /** A 4 KiB leaf for `frame` with the given attributes. */
  function LeafWord(m: Mapping): Word
  {
    Word(true, m.attrs.writable, m.attrs.user, m.attrs.pwt, m.attrs.pcd, m.attrs.accessed, m.attrs.dirty, m.attrs.pat,
         m.attrs.low, m.frame, m.attrs.high, m.attrs.nx)
  }

  lemma LeafWordMeans(m: Mapping, va: Va)
    ensures IsLeaf(3, LeafWord(m)) && LeafMapping(3, LeafWord(m), va) == m
  {
  }

  // -------------------------------------------------------------- splitting

  /** Entry `i` of the page table that replaces the 2 MiB leaf `e`: same flags, PAT moved to bit 7. */
  function Split2M(e: Word, i: nat): Word
  {
    e.(addr := BaseFrame(2, e) + i, bit7 := Pat(2, e))
  }

  /** Entry `i` of the page directory that replaces the 1 GiB leaf `e`: still a large page, PAT at bit 12. */
  function Split1G(e: Word, i: nat): Word
  {
    e.(addr := BaseFrame(1, e) + i * 0x200 + (if Pat(1, e) then 1 else 0), present := true, bit7 := true)
  }

  /** Splitting a 2 MiB page keeps frame, permissions and memory type of every page in it. */
  lemma Split2MKeeps(e: Word, va: Va)
    requires IsLeaf(2, e) && VaOk(va)
    ensures IsLeaf(3, Split2M(e, va.i3)) && LeafMapping(3, Split2M(e, va.i3), va) == LeafMapping(2, e, va)
  {
  }

  /** Splitting a 1 GiB page keeps frame, permissions and memory type of every page in it. */
  lemma Split1GKeeps(e: Word, va: Va)
    requires IsLeaf(1, e) && VaOk(va)
    ensures IsLeaf(2, Split1G(e, va.i2)) && LeafMapping(2, Split1G(e, va.i2), va) == LeafMapping(1, e, va)
  {
    LargeAddress(e.addr / 0x4_0000, va.i2, if Pat(1, e) then 1 else 0);
  }

  lemma LargeAddress(q: nat, i: nat, b: nat)
    requires b < 2
    ensures var a := q * 0x4_0000 + i * 0x200 + b; a / 0x200 * 0x200 == q * 0x4_0000 + i * 0x200 && a % 2 == b
  {
    LargeUnit(q * 0x200 + i, b);
    LargeBit(q * 0x2_0000 + i * 0x100, b);
  }

  lemma LargeUnit(x: nat, b: nat)
    requires b < 2
    ensures (x * 0x200 + b) / 0x200 == x
  {
  }

  lemma LargeBit(x: nat, b: nat)
    requires b < 2
    ensures (x * 2 + b) % 2 == b
  {
  }
}

/** The same splits on raw 64-bit words, with the masks of the source: one bit pattern at a time. */
module PageEntryBits {

  const PRESENT: bv64 := 0x1
  const HUGE: bv64 := 0x80
  const ADDR_MASK: bv64 := 0x000f_ffff_ffff_f000
  const HUGE_2M_MASK: bv64 := 0x000f_ffff_ffe0_0000
  const HUGE_1G_MASK: bv64 := 0x000f_ffff_c000_0000
  const PAT_HUGE: bv64 := 0x1000
  const PAT_4K: bv64 := 0x80

  function SplitFlags2M(entry: bv64): bv64
  {
    var flags := entry & !ADDR_MASK & !HUGE;
    if entry & PAT_HUGE != 0 then flags | PAT_4K else flags
  }

  /** The address of the `i`-th small page of a large one, and the word of a small page at `a` with the large one's
      flags. */
  function PageIn(entry: bv64, i: bv64): bv64 { (entry & HUGE_2M_MASK) + (i << 12) }

  function SmallAt(a: bv64, entry: bv64): bv64 { a | SplitFlags2M(entry) }

  function SplitEntry2M(entry: bv64, i: bv64): bv64 { SmallAt(PageIn(entry, i), entry) }

  function SplitFlags1G(entry: bv64): bv64
  {
    var flags := entry & !ADDR_MASK & !HUGE;
    if entry & PAT_HUGE != 0 then flags | PAT_HUGE else flags
  }

  function SplitEntry1G(entry: bv64, i: bv64): bv64
  {
    ((entry & HUGE_1G_MASK) + (i << 21)) | SplitFlags1G(entry) | PRESENT | HUGE
  }

  /** For every large-page word and every address in the page, the 4 KiB word found after the split
      leads to the same physical byte. */
  lemma Split2MAddress(entry: bv64, virt: bv64)
    ensures var leaf := SplitEntry2M(entry, (virt >> 12) & 0x1ff);
            (leaf & ADDR_MASK) + (virt & 0xfff) == (entry & HUGE_2M_MASK) + (virt & 0x1f_ffff)
  {
  }

  /** It keeps every flag bit but the page-size bit, and the PAT bit moves from bit 12 to bit 7. */
  lemma Split2MFlags(entry: bv64, virt: bv64)
    ensures var leaf := SplitEntry2M(entry, (virt >> 12) & 0x1ff);
            && leaf & !ADDR_MASK & !PAT_4K == entry & !ADDR_MASK & !HUGE
            && (leaf & PAT_4K != 0 <==> entry & PAT_HUGE != 0)
  {
    hide SplitFlags2M;
    NoCarry2M(entry, virt);
    FlagsAfter2M((entry & HUGE_2M_MASK) + (((virt >> 12) & 0x1ff) << 12), entry);
  }

  lemma NoCarry2M(entry: bv64, virt: bv64)
    ensures ((entry & HUGE_2M_MASK) + (((virt >> 12) & 0x1ff) << 12)) & !ADDR_MASK == 0
  {
  }

  lemma FlagsAfter2M(a: bv64, entry: bv64)
    requires a & !ADDR_MASK == 0
    ensures var leaf := a | SplitFlags2M(entry);
            && leaf & !ADDR_MASK & !PAT_4K == entry & !ADDR_MASK & !HUGE
            && (leaf & PAT_4K != 0 <==> entry & PAT_HUGE != 0)
  {
  }

  /** Likewise for the 2 MiB word found after splitting a 1 GiB page. */
  lemma Split1GAddress(entry: bv64, virt: bv64)
    ensures var leaf := SplitEntry1G(entry, (virt >> 21) & 0x1ff);
            (leaf & HUGE_2M_MASK) + (virt & 0x1f_ffff) == (entry & HUGE_1G_MASK) + (virt & 0x3fff_ffff)
  {
  }

  /** The flags stay, the word is still a large page, and PAT stays at bit 12. */
  lemma Split1GFlags(entry: bv64, virt: bv64)
    requires entry & PRESENT != 0
    ensures var leaf := SplitEntry1G(entry, (virt >> 21) & 0x1ff);
            && leaf & !ADDR_MASK & !HUGE == entry & !ADDR_MASK & !HUGE
            && leaf & HUGE != 0
            && (leaf & PAT_HUGE != 0 <==> entry & PAT_HUGE != 0)
  {
    hide SplitFlags1G;
    NoCarry1G(entry, virt);
    FlagsAfter1G((entry & HUGE_1G_MASK) + (((virt >> 21) & 0x1ff) << 21), entry);
  }

  lemma NoCarry1G(entry: bv64, virt: bv64)
    ensures ((entry & HUGE_1G_MASK) + (((virt >> 21) & 0x1ff) << 21)) & !HUGE_2M_MASK == 0
  {
  }

  lemma FlagsAfter1G(a: bv64, entry: bv64)
    requires a & !HUGE_2M_MASK == 0 && entry & PRESENT != 0
    ensures var leaf := a | SplitFlags1G(entry) | PRESENT | HUGE;
            && leaf & !ADDR_MASK & !HUGE == entry & !ADDR_MASK & !HUGE
            && leaf & HUGE != 0
            && (leaf & PAT_HUGE != 0 <==> entry & PAT_HUGE != 0)
  {
  }
}
