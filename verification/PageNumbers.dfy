/** Virtual pages by number: the four table indices of a page are the digits of its number. */
module PageNumbers {
  import opened PageEntries
  import opened PageSpaces

  /** The virtual page with page number `n`, of which the low 36 bits count. */
  function VaN(n: nat): (va: Va)
    ensures VaOk(va)
  {
    Va(n / 0x800_0000 % 512, n / 0x4_0000 % 512, n / 0x200 % 512, n % 512)
  }

  /** The low 36 bits of a page number. */
  function Num(va: Va): nat { va.i0 * 0x800_0000 + va.i1 * 0x4_0000 + va.i2 * 0x200 + va.i3 }

  lemma PageOfN(virt: nat)
    ensures PageOf(virt) == VaN(virt / 0x1000)
  {
    assert virt / 0x1000 / 0x200 == virt / 0x20_0000;
    assert virt / 0x1000 / 0x4_0000 == virt / 0x4000_0000;
    assert virt / 0x1000 / 0x800_0000 == virt / 0x80_0000_0000;
  }

  lemma NumN(n: nat)
    ensures Num(VaN(n)) == n % 0x10_0000_0000
  {
    assert n / 0x200 / 512 == n / 0x4_0000;
    assert n / 0x4_0000 / 512 == n / 0x800_0000;
    assert n / 0x800_0000 / 512 == n / 0x10_0000_0000;
  }

  /** The number of a page's 2 MiB block. */
  function BlockNum(va: Va): nat { (va.i0 * 0x200 + va.i1) * 0x200 + va.i2 }

  lemma NumParts(va: Va)
    requires VaOk(va)
    ensures Num(va) == BlockNum(va) * 0x200 + va.i3 && Num(va) / 0x200 == BlockNum(va) && Num(va) % 0x200 == va.i3
    ensures BlockNum(va) % 0x200 == va.i2 && BlockNum(va) / 0x200 == va.i0 * 0x200 + va.i1
    ensures BlockNum(va) / 0x200 % 0x200 == va.i1 && BlockNum(va) / 0x200 / 0x200 == va.i0
  {
  }

  lemma NumUnique(a: Va, b: Va)
    requires VaOk(a) && VaOk(b)
    ensures Num(a) == Num(b) <==> a == b
    ensures Num(a) / 0x200 == Num(b) / 0x200 <==> SameBlock(a, b)
  {
    hide Num, BlockNum;
    NumParts(a);
    NumParts(b);
    assert BlockNum(a) == BlockNum(b) ==> SameBlock(a, b);
  }

  /** Pages of the lower half are recovered from their numbers. */
  lemma NumberOf(n: nat)
    requires n < 0x8_0000_0000
    ensures Num(PageOf(n * 0x1000)) == n && n * 0x1000 < USER_SPACE_END && n * 0x1000 % 0x1000 == 0
  {
    hide VaN, Num, PageOf;
    PageOfN(n * 0x1000);
    NumN(n);
  }
}
