/** The 64-bit words behind the entry records, and that every entry the source computes with masks
    decodes to the record that the model writes. */
module PageCodes {
  import opened PageEntries
  import opened PageEntryBits
  import opened PageSpaces

  const WRITABLE: bv64 := 0x2
  const USER: bv64 := 0x4
  const PWT: bv64 := 0x8
  const PCD: bv64 := 0x10
  const NO_EXECUTE: bv64 := 0x8000_0000_0000_0000

  // ------------------------------------------------------- numbers in a word

  function Pow2(n: nat): (r: nat)
    ensures r > 0
  {
    if n == 0 then 1 else 2 * Pow2(n - 1)
  }

  function Half(x: bv64): bv64 { x >> 1 }

  predicate Odd(x: bv64) { x & 1 != 0 }

  function Double(x: bv64, odd: bool): bv64 { if odd then (x << 1) | 1 else x << 1 }

  function Masked(x: bv64, m: bv64): bv64 { x & m }

  /** The number that the lowest `n` bits of `x` spell. */
  function Low(x: bv64, n: nat): (r: nat)
    ensures r < Pow2(n)
  {
    if n == 0 then 0 else 2 * Low(Half(x), n - 1) + (if Odd(x) then 1 else 0)
  }

  /** The word whose lowest `n` bits spell `v`. */
  function Bits(v: nat, n: nat): bv64
  {
    if n == 0 then 0 else Double(Bits(v / 2, n - 1), v % 2 == 1)
  }

  /** The lowest `n` bits set. */
  function Ones(n: nat): bv64
  {
    if n == 0 then 0 else Double(Ones(n - 1), true)
  }

  lemma OnesAre()
    ensures Ones(4) == 0xf && Ones(9) == 0x1ff && Ones(11) == 0x7ff && Ones(22) == 0x3f_ffff
    ensures Ones(31) == 0x7fff_ffff && Ones(40) == 0xff_ffff_ffff
  {
    assert Ones(4) == 0xf;
    assert Ones(9) == 0x1ff;
    assert Ones(11) == 0x7ff;
    assert Ones(16) == 0xffff;
    assert Ones(22) == 0x3f_ffff;
    assert Ones(27) == 0x7ff_ffff;
    assert Ones(31) == 0x7fff_ffff;
    assert Ones(36) == 0xf_ffff_ffff;
  }

  lemma LowStep(x: bv64, m: bv64)
    ensures Double(Masked(Half(x), m), Odd(x)) == Masked(x, Double(m, true)) && Masked(x, 0) == 0
  {
  }

  lemma DoubleInjective(x: bv64, a: bool, y: bv64, b: bool)
    requires Double(x, a) == Double(y, b) && Small(x) && Small(y)
    ensures x == y && a == b
  {
  }

  predicate Small(x: bv64) { x & NO_EXECUTE == 0 }

  lemma HalfSmall(x: bv64, m: bv64)
    ensures Small(Masked(Half(x), m))
  {
  }

  lemma AgreeStep(x: bv64, y: bv64, m: bv64)
    requires Masked(x, Double(m, true)) == Masked(y, Double(m, true))
    ensures Odd(x) == Odd(y) && Masked(Half(x), m) == Masked(Half(y), m)
  {
    hide Half, Odd, Double, Masked, Small;
    LowStep(x, m);
    LowStep(y, m);
    HalfSmall(x, m);
    HalfSmall(y, m);
    DoubleInjective(Masked(Half(x), m), Odd(x), Masked(Half(y), m), Odd(y));
  }

  /** Only the lowest bits count. */
  lemma {:induction false} LowAgree(x: bv64, y: bv64, n: nat)
    requires Masked(x, Ones(n)) == Masked(y, Ones(n))
    ensures Low(x, n) == Low(y, n)
    decreases n
  {
    hide Half, Odd, Double, Masked;
    if n > 0 {
      AgreeStep(x, y, Ones(n - 1));
      LowAgree(Half(x), Half(y), n - 1);
    }
  }

  function Shr(x: bv64, k: nat): bv64 { if k == 0 then x else Shr(Half(x), k - 1) }

  /** A field in two parts. */
  lemma {:induction false} LowParts(x: bv64, k: nat, n: nat)
    ensures Low(x, k + n) == Low(x, k) + Pow2(k) * Low(Shr(x, k), n)
    decreases k
  {
    hide Half, Odd;
    if k > 0 {
      LowParts(Half(x), k - 1, n);
      assert Pow2(k) == 2 * Pow2(k - 1);
      Twice(Pow2(k - 1), Low(Shr(x, k), n));
    }
  }

  lemma Twice(p: nat, q: nat)
    ensures 2 * (p * q) == 2 * p * q
  {
  }

  function Upper(x: bv64): bv64 { x >> 9 }

  /** The page offset of a 2 MiB page, in frames, is nine bits. */
  lemma LowNine(x: bv64, n: nat)
    ensures Low(x, 9 + n) == Low(x, 9) + 0x200 * Low(Upper(x), n)
    ensures Low(x, 9) < 0x200
  {
    hide Half, Odd, Low, Shr, Eighth, Upper;
    LowParts(x, 9, n);
    assert Pow2(9) == 0x200;
    ShrNine(x);
    HalfThree(x);
  }

  function Eighth(x: bv64): bv64 { x >> 3 }

  lemma ShrThree(x: bv64, k: nat)
    ensures Shr(x, k + 3) == Shr(Half(Half(Half(x))), k)
  {
    hide Half;
    assert Shr(x, k + 3) == Shr(Half(x), k + 2);
    assert Shr(Half(x), k + 2) == Shr(Half(Half(x)), k + 1);
  }

  lemma HalfThree(x: bv64)
    ensures Half(Half(Half(x))) == Eighth(x) && Eighth(Eighth(Eighth(x))) == Upper(x)
  {
  }

  lemma ShrNine(x: bv64)
    ensures Shr(x, 9) == Eighth(Eighth(Eighth(x)))
  {
    hide Half, Eighth, Shr;
    var y := Eighth(x);
    var z := Eighth(y);
    HalfThree(x);
    HalfThree(y);
    HalfThree(z);
    ShrThree(x, 6);
    ShrThree(y, 3);
    ShrThree(z, 0);
    ShrNone(Eighth(z));
  }

  lemma ShrNone(x: bv64)
    ensures Shr(x, 0) == x
  {
  }

  /** Back to bits: the lowest `n` bits of `x`. */
  lemma {:induction false} BitsOfLow(x: bv64, n: nat)
    ensures Bits(Low(x, n), n) == Masked(x, Ones(n))
    decreases n
  {
    hide Half, Odd, Double, Masked;
    LowStep(x, if n > 0 then Ones(n - 1) else 0);
    if n > 0 {
      BitsOfLow(Half(x), n - 1);
    }
  }

  lemma GrowStep(m: bv64, m': bv64)
    requires Masked(m, m') == m
    ensures Masked(Double(m, true), Double(m', true)) == Double(m, true)
  {
  }

  lemma {:induction false} OnesGrow(n: nat)
    ensures Masked(Ones(n), Ones(n + 1)) == Ones(n)
  {
    hide Double, Masked;
    if n == 0 {
      LowStep(Ones(1), 0);
      MaskZero(Ones(1));
    } else {
      OnesGrow(n - 1);
      GrowStep(Ones(n - 1), Ones(n));
    }
  }

  lemma MaskZero(m: bv64)
    ensures Masked(0, m) == 0 && Masked(m, m) == m
  {
  }

  lemma MaskTrans(a: bv64, b: bv64, c: bv64)
    requires Masked(a, b) == a && Masked(b, c) == b
    ensures Masked(a, c) == a
  {
  }

  lemma {:induction false} OnesInside(n: nat, m: nat)
    requires n <= m
    ensures Masked(Ones(n), Ones(m)) == Ones(n)
    decreases m - n
  {
    hide Double, Masked;
    MaskZero(Ones(n));
    if n < m {
      OnesInside(n + 1, m);
      OnesGrow(n);
      MaskTrans(Ones(n), Ones(n + 1), Ones(m));
    }
  }

  function Wide(): bv64 { 0xff_ffff_ffff }

  lemma Narrow(n: nat)
    requires n <= 40
    ensures Masked(Ones(n), Wide()) == Ones(n)
  {
    hide Double, Masked, Ones;
    OnesAre();
    OnesInside(n, 40);
  }

  lemma DoubleStep(x: bv64, odd: bool, m: bv64)
    requires Masked(m, Wide()) == m
    ensures Masked(Half(Double(x, odd)), m) == Masked(x, m) && Odd(Double(x, odd)) == odd
  {
  }

  /** Back to the number, if it fits. */
  lemma {:induction false} LowOfBits(v: nat, n: nat)
    requires v < Pow2(n) && n <= 40
    ensures Low(Bits(v, n), n) == v
  {
    hide Half, Odd, Double, Masked, Wide, Ones;
    if n > 0 {
      Narrow(n - 1);
      var x := Bits(v / 2, n - 1);
      DoubleStep(x, v % 2 == 1, Ones(n - 1));
      LowAgree(Half(Double(x, v % 2 == 1)), x, n - 1);
      LowOfBits(v / 2, n - 1);
    }
  }

  /** The bits of a number stay in their field. */
  lemma {:induction false} BitsInside(v: nat, n: nat)
    ensures Masked(Bits(v, n), Ones(n)) == Bits(v, n)
  {
    hide Double, Masked;
    if n == 0 {
      MaskZero(0);
    } else {
      BitsInside(v / 2, n - 1);
      InsideStep(Bits(v / 2, n - 1), v % 2 == 1, Ones(n - 1));
    }
  }

  lemma InsideStep(x: bv64, odd: bool, m: bv64)
    requires Masked(x, m) == x
    ensures Masked(Double(x, odd), Double(m, true)) == Double(x, odd)
  {
  }

  // ------------------------------------------------------------- the records

  function Field8(e: bv64): bv64 { e >> 8 }

  function Field12(e: bv64): bv64 { e >> 12 }

  function Field52(e: bv64): bv64 { e >> 52 }

  /** The record of a 64-bit entry. */
  function Decode(e: bv64): Word
  {
    Word(e & 0x1 != 0, e & 0x2 != 0, e & 0x4 != 0, e & 0x8 != 0, e & 0x10 != 0, e & 0x20 != 0, e & 0x40 != 0,
      e & 0x80 != 0,
         Low(Field8(e), 4), Low(Field12(e), 40), Low(Field52(e), 11), e & NO_EXECUTE != 0)
  }

  lemma DecodeFields(e: bv64)
    ensures var d := Decode(e);
            d.low == Low(Field8(e), 4) && d.addr == Low(Field12(e), 40)
            && d.high == Low(Field52(e), 11)
  {
  }

  function Flag(on: bool, bit: bv64): bv64 { if on then bit else 0 }

  function OtherFlags(writable: bool, user: bool, pwt: bool, pcd: bool, accessed: bool, dirty: bool, nx: bool): bv64
  {
    Flag(writable, 0x2) | Flag(user, 0x4) | Flag(pwt, 0x8) | Flag(pcd, 0x10)
    | Flag(accessed, 0x20) | Flag(dirty, 0x40) | Flag(nx, NO_EXECUTE)
  }

  function AllFlags(present: bool, bit7: bool, others: bv64): bv64
  {
    Flag(present, PRESENT) | Flag(bit7, HUGE) | others
  }

  function FlagBits(w: Word): bv64
  {
    AllFlags(w.present, w.bit7, OtherFlags(w.writable, w.user, w.pwt, w.pcd, w.accessed, w.dirty, w.nx))
  }

  function Fields(low: bv64, addr: bv64, high: bv64): bv64 { (low << 8) | (addr << 12) | (high << 52) }

  /** The 64-bit entry of a record. */
  function Encode(w: Word): bv64
  {
    FlagBits(w) | Fields(Bits(w.low, 4), Bits(w.addr, 40), Bits(w.high, 11))
  }

  predicate Encodable(w: Word) { w.low < 0x10 && w.addr < 0x100_0000_0000 && w.high < 0x800 }

  lemma Pow2Are()
    ensures Pow2(4) == 0x10 && Pow2(9) == 0x200 && Pow2(11) == 0x800 && Pow2(40) == 0x100_0000_0000
  {
    assert Pow2(4) == 0x10;
    assert Pow2(9) == 0x200;
    assert Pow2(11) == 0x800;
    assert Pow2(16) == 0x1_0000;
    assert Pow2(22) == 0x40_0000;
    assert Pow2(28) == 0x1000_0000;
    assert Pow2(34) == 0x4_0000_0000;
  }

  /** The bits of an entry that are no number. */
  function FlagMask(): bv64 { 0x8000_0000_0000_00ff }

  lemma FlagBitsOf(e: bv64)
    ensures FlagBits(Decode(e)) == Masked(e, FlagMask())
  {
    hide Low;
  }

  lemma PutTogether(e: bv64)
    ensures Masked(e, FlagMask()) | Fields(Masked(Field8(e), 0xf), Masked(Field12(e), 0xff_ffff_ffff),
            Masked(Field52(e), 0x7ff)) == e
  {
  }

  /** Every entry is the code of its record ... */
  lemma EncodeDecode(e: bv64)
    ensures Encode(Decode(e)) == e && Encodable(Decode(e))
  {
    hide Low, Bits, Ones, Pow2, Masked, FlagBits, Fields, FlagMask, Decode, Field8, Field12, Field52;
    OnesAre();
    Pow2Are();
    BitsOfLow(Field8(e), 4);
    BitsOfLow(Field12(e), 40);
    BitsOfLow(Field52(e), 11);
    FlagBitsOf(e);
    DecodeFields(e);
    PutTogether(e);
  }

  lemma FlagsInside(w: Word)
    ensures Masked(FlagBits(w), FlagMask()) == FlagBits(w)
  {
    hide Flag;
    forall on, bit: bv64 | Masked(bit, FlagMask()) == bit ensures Masked(Flag(on, bit), FlagMask()) == Flag(on, bit) {
      FlagInside(on, bit);
    }
  }

  lemma FlagInside(on: bool, bit: bv64)
    requires Masked(bit, FlagMask()) == bit
    ensures Masked(Flag(on, bit), FlagMask()) == Flag(on, bit)
  {
  }

  lemma TakeApart(flags: bv64, low: bv64, addr: bv64, high: bv64)
    requires Masked(flags, FlagMask()) == flags
    requires Masked(low, 0xf) == low && Masked(addr, 0xff_ffff_ffff) == addr && Masked(high, 0x7ff) == high
    ensures var e := flags | Fields(low, addr, high);
            && Masked(e, FlagMask()) == flags && Masked(Field8(e), 0xf) == low
            && Masked(Field12(e), 0xff_ffff_ffff) == addr && Masked(Field52(e), 0x7ff) == high
  {
  }

  ghost predicate SameFlags(d: Word, w: Word)
  {
    && d.present == w.present && d.writable == w.writable && d.user == w.user && d.pwt == w.pwt && d.pcd == w.pcd
    && d.accessed == w.accessed && d.dirty == w.dirty && d.bit7 == w.bit7 && d.nx == w.nx
  }

  /** The flags of a record are those of its code. */
  lemma FlagsBack(w: Word, e: bv64)
    requires Masked(e, FlagMask()) == FlagBits(w)
    ensures SameFlags(Decode(e), w)
  {
    hide Low;
  }

  /** ... and every record is that of its code. */
  lemma DecodeEncode(w: Word)
    requires Encodable(w)
    ensures Decode(Encode(w)) == w
  {
    hide Low, Bits, Ones, Pow2, Masked, FlagBits, Fields, FlagMask, Decode, Field8, Field12, Field52;
    OnesAre();
    Pow2Are();
    var low, addr, high, e := Bits(w.low, 4), Bits(w.addr, 40), Bits(w.high, 11), Encode(w);
    BitsInside(w.low, 4);
    BitsInside(w.addr, 40);
    BitsInside(w.high, 11);
    FlagsInside(w);
    TakeApart(FlagBits(w), low, addr, high);
    FlagsBack(w, e);
    FieldBack(w.low, Field8(e), 4);
    FieldBack(w.addr, Field12(e), 40);
    FieldBack(w.high, Field52(e), 11);
    DecodeFields(e);
  }

  lemma FieldBack(v: nat, x: bv64, n: nat)
    requires v < Pow2(n) && n <= 40 && Masked(x, Ones(n)) == Bits(v, n)
    ensures Low(x, n) == v
  {
    hide Low, Bits, Ones, Pow2, Masked;
    BitsInside(v, n);
    LowAgree(x, Bits(v, n), n);
    LowOfBits(v, n);
  }

  // ------------------------------------------------ what the source computes

  /** The frame of a physical address. */
  function FrameOf(phys: bv64): nat { Low(Field12(phys), 40) }

  function AttrsOf(w: Word): Attrs
  {
    Attrs(w.writable, w.user, w.nx, w.bit7, w.pcd, w.pwt, w.accessed, w.dirty, w.low, w.high)
  }

  /** `e` has the small fields of `f` and the address of `a`. */
  ghost predicate Mixed(e: bv64, f: bv64, a: bv64)
  {
    && Masked(Field8(e), 0xf) == Masked(Field8(f), 0xf) && Masked(Field52(e), 0x7ff) == Masked(Field52(f), 0x7ff)
    && Masked(Field12(e), 0xff_ffff_ffff) == Masked(Field12(a), 0xff_ffff_ffff)
  }

  lemma MixedDecode(e: bv64, f: bv64, a: bv64, w: Word)
    requires Mixed(e, f, a) && Masked(e, FlagMask()) == FlagBits(w)
    requires w.low == Decode(f).low && w.high == Decode(f).high && w.addr == FrameOf(a)
    ensures Decode(e) == w
  {
    hide Low, Ones, Masked, FlagBits, FlagMask, Decode, Field8, Field12, Field52;
    OnesAre();
    FlagsBack(w, e);
    DecodeFields(e);
    DecodeFields(f);
    LowAgree(Field8(e), Field8(f), 4);
    LowAgree(Field12(e), Field12(a), 40);
    LowAgree(Field52(e), Field52(f), 11);
  }

  lemma Or(p: bv64, h: bv64, o: bv64)
    ensures p | h | o == (p | h | o) | p && p | h | o == (0 | h | o) | p && p | 0 | o == (p | 0 | o) | p
            && p | 0 | o == (0 | 0 | o) | p
    ensures p | h | o == (p | h | o) | p | h && p | h | o == (0 | h | o) | p | h
    ensures p | h | o == (p | 0 | o) | p | h && p | h | o == (0 | 0 | o) | p | h
  {
  }

  /** Setting flag bits sets those flags and nothing else. */
  lemma Switched(present: bool, bit7: bool, others: bv64)
    ensures AllFlags(true, bit7, others) == SetPresent(AllFlags(present, bit7, others))
    ensures AllFlags(true, true, others) == SetLarge(AllFlags(present, bit7, others))
  {
    Or(PRESENT, HUGE, others);
    if present {
      if bit7 {} else {}
    } else {
      if bit7 {} else {}
    }
  }

  /** The entry that `map4k` and `protect` write. */
  function MapEntry(phys: bv64, flags: bv64): bv64 { Or3(phys & ADDR_MASK, flags, PRESENT) }

  function Or3(a: bv64, b: bv64, c: bv64): bv64 { a | b | c }

  predicate NoAddress(flags: bv64) { flags & ADDR_MASK == 0 }

  function SetPresent(flags: bv64): bv64 { flags | PRESENT }

  function SetLarge(flags: bv64): bv64 { flags | PRESENT | HUGE }

  lemma MapFlags(phys: bv64, flags: bv64)
    ensures Masked(MapEntry(phys, flags), FlagMask()) == SetPresent(Masked(flags, FlagMask()))
  {
  }

  lemma MapSmall(phys: bv64, flags: bv64)
    ensures Masked(Field8(MapEntry(phys, flags)), 0xf) == Masked(Field8(flags), 0xf)
  {
  }

  lemma MapHigh(phys: bv64, flags: bv64)
    ensures Masked(Field52(MapEntry(phys, flags)), 0x7ff) == Masked(Field52(flags), 0x7ff)
  {
  }

  lemma ShiftOr(a: bv64, b: bv64, c: bv64)
    ensures Field12(Or3(a, b, c)) == Or3(Field12(a), Field12(b), Field12(c))
  {
  }

  lemma AddressField(phys: bv64)
    ensures Field12(phys & ADDR_MASK) == Masked(Field12(phys), 0xff_ffff_ffff) && Field12(PRESENT) == 0
  {
  }

  lemma NoField(flags: bv64)
    requires NoAddress(flags)
    ensures Masked(Field12(flags), 0xff_ffff_ffff) == 0
  {
  }

  lemma MaskOr(x: bv64, y: bv64, m: bv64)
    requires Masked(y, m) == 0
    ensures Masked(Or3(Masked(x, m), y, 0), m) == Masked(x, m)
  {
  }

  lemma MapAddr(phys: bv64, flags: bv64)
    requires NoAddress(flags)
    ensures Masked(Field12(MapEntry(phys, flags)), 0xff_ffff_ffff) == Masked(Field12(phys), 0xff_ffff_ffff)
  {
    hide Masked, Field12, NoAddress, Or3;
    ShiftOr(phys & ADDR_MASK, flags, PRESENT);
    AddressField(phys);
    NoField(flags);
    MaskOr(Field12(phys), Field12(flags), 0xff_ffff_ffff);
  }

  /** `w` has the flags of `d`, and is present. */
  ghost predicate FlagsOf(w: Word, d: Word, large: bool)
  {
    && w.present && w.bit7 == (d.bit7 || large) && w.writable == d.writable && w.user == d.user && w.pwt == d.pwt
    && w.pcd == d.pcd && w.accessed == d.accessed && w.dirty == d.dirty && w.nx == d.nx
  }

  lemma PresentFlags(flags: bv64, w: Word)
    ensures FlagsOf(w, Decode(flags), false) ==> SetPresent(Masked(flags, FlagMask())) == FlagBits(w)
    ensures FlagsOf(w, Decode(flags), true) ==> SetLarge(Masked(flags, FlagMask())) == FlagBits(w)
  {
    hide Decode, OtherFlags, AllFlags, Masked, FlagMask, SetPresent, SetLarge;
    var d := Decode(flags);
    FlagBitsOf(flags);
    Switched(d.present, d.bit7, OtherFlags(d.writable, d.user, d.pwt, d.pcd, d.accessed, d.dirty, d.nx));
  }

  /** `map4k` and `protect` write the leaf of the model, for every physical address and all flags. */
  lemma Map4KCode(phys: bv64, flags: bv64)
    requires NoAddress(flags)
    ensures Decode(MapEntry(phys, flags)) == LeafWord(Mapping(FrameOf(phys), AttrsOf(Decode(flags))))
  {
    hide Decode, FlagBits, Masked, FlagMask, FrameOf, MapEntry, NoAddress, SetPresent, SetLarge, Field8, Field12,
      Field52;
    var w := LeafWord(Mapping(FrameOf(phys), AttrsOf(Decode(flags))));
    MapFlags(phys, flags);
    MapSmall(phys, flags);
    MapHigh(phys, flags);
    MapAddr(phys, flags);
    PresentFlags(flags, w);
    MixedDecode(MapEntry(phys, flags), flags, phys, w);
  }

  // -------------------------------------------------------------- large pages

  /** The entry that `map2m` writes. */
  function LargeEntry(phys: bv64, flags: bv64): bv64 { Or3(Block(phys), flags, PRESENT | HUGE) }

  lemma LargeFlags(phys: bv64, flags: bv64)
    ensures Masked(LargeEntry(phys, flags), FlagMask()) == SetLarge(Masked(flags, FlagMask()))
  {
  }

  lemma LargeSmall(phys: bv64, flags: bv64)
    ensures Masked(Field8(LargeEntry(phys, flags)), 0xf) == Masked(Field8(flags), 0xf)
  {
  }

  lemma LargeHigh(phys: bv64, flags: bv64)
    ensures Masked(Field52(LargeEntry(phys, flags)), 0x7ff) == Masked(Field52(flags), 0x7ff)
  {
  }

  lemma LargeField(phys: bv64)
    ensures Field12(Block(phys)) == Masked(Field12(Block(phys)), 0xff_ffff_ffff) && Field12(PRESENT | HUGE) == 0
  {
  }

  lemma LargeAddr(phys: bv64, flags: bv64)
    requires NoAddress(flags)
    ensures Masked(Field12(LargeEntry(phys, flags)), 0xff_ffff_ffff) == Masked(Field12(Block(phys)), 0xff_ffff_ffff)
  {
    hide Masked, Field12, NoAddress, Or3, Block;
    ShiftOr(Block(phys), flags, PRESENT | HUGE);
    LargeField(phys);
    NoField(flags);
    MaskOr(Field12(Block(phys)), Field12(flags), 0xff_ffff_ffff);
  }

  function Block(phys: bv64): bv64 { phys & HUGE_2M_MASK }

  lemma BlockOffset(phys: bv64)
    ensures Masked(Field12(Block(phys)), 0x1ff) == Masked(0, 0x1ff)
  {
  }

  lemma BlockUpper(phys: bv64)
    ensures Masked(Upper(Field12(Block(phys))), 0x7fff_ffff) == Masked(Upper(Field12(phys)), 0x7fff_ffff)
  {
    hide Upper, Field12, Field21, Block, Masked;
    Field21Of(Block(phys));
    Field21Of(phys);
    BlockField21(phys);
    MaskTwice(Field21(phys), 0x7fff_ffff);
  }

  function Field21(x: bv64): bv64 { x >> 21 }

  lemma Field21Of(x: bv64)
    ensures Upper(Field12(x)) == Field21(x)
  {
  }

  lemma BlockField21(phys: bv64)
    ensures Field21(Block(phys)) == Masked(Field21(phys), 0x7fff_ffff)
  {
    calc {
      Field21(Block(phys));
      Field21(phys & HUGE_2M_MASK);
      (phys & HUGE_2M_MASK) >> 21;
      { BlockBits(phys); }
      Field21(phys) & 0x7fff_ffff;
      Masked(Field21(phys), 0x7fff_ffff);
    }
  }

  lemma BlockBits(phys: bv64)
    ensures (phys & HUGE_2M_MASK) >> 21 == Field21(phys) & 0x7fff_ffff
  {
  }

  lemma MaskTwice(x: bv64, m: bv64)
    ensures Masked(Masked(x, m), m) == Masked(x, m)
  {
  }

  lemma Cut(v: nat, offset: nat, upper: nat)
    requires offset < 0x200 && v == offset + 0x200 * upper
    ensures v / 0x200 * 0x200 == 0x200 * upper && v / 0x200 == upper
  {
  }

  lemma {:induction false} LowZero(n: nat)
    ensures Low(0, n) == 0
  {
    if n > 0 {
      LowZero(n - 1);
    }
  }

  /** Cutting an address down to its 2 MiB page. */
  lemma LargeFrame(phys: bv64)
    ensures FrameOf(Block(phys)) == FrameOf(phys) / 0x200 * 0x200
  {
    hide Low, Ones, Masked, Field12, Block, Upper;
    OnesAre();
    var x, y := Field12(phys), Field12(Block(phys));
    BlockOffset(phys);
    BlockUpper(phys);
    LowNine(x, 31);
    LowNine(y, 31);
    LowAgree(y, 0, 9);
    LowZero(9);
    LowAgree(Upper(y), Upper(x), 31);
    Cut(FrameOf(phys), Low(x, 9), Low(Upper(x), 31));
  }

  /** `map2m` writes the large leaf of the model. */
  lemma Map2MCode(phys: bv64, flags: bv64)
    requires NoAddress(flags)
    ensures Decode(LargeEntry(phys, flags)) == LargeWord(FrameOf(phys), AttrsOf(Decode(flags)))
  {
    hide Decode, FlagBits, Masked, FlagMask, FrameOf, LargeEntry, NoAddress, SetPresent, SetLarge, Field8, Field12,
      Field52;
    var w := LargeWord(FrameOf(phys), AttrsOf(Decode(flags)));
    LargeFlags(phys, flags);
    LargeSmall(phys, flags);
    LargeHigh(phys, flags);
    LargeAddr(phys, flags);
    LargeFrame(phys);
    PresentFlags(flags, w);
    MixedDecode(LargeEntry(phys, flags), flags, Block(phys), w);
  }

  // ---------------------------------------------------------------- splitting

  predicate Index(i: bv64) { i < 0x200 }

  /** Flags and small fields of two entries agree, up to bit 7. */
  predicate Alike(e: bv64, f: bv64) { e & !ADDR_MASK & !HUGE == f & !ADDR_MASK & !HUGE }

  lemma AlikeSmall(e: bv64, f: bv64)
    requires Alike(e, f)
    ensures Masked(Field8(e), 0xf) == Masked(Field8(f), 0xf)
  {
  }

  lemma AlikeHigh(e: bv64, f: bv64)
    requires Alike(e, f)
    ensures Masked(Field52(e), 0x7ff) == Masked(Field52(f), 0x7ff)
  {
  }

  function FlagMask7(): bv64 { 0x8000_0000_0000_007f }

  lemma AlikeFlags(e: bv64, f: bv64)
    requires Alike(e, f)
    ensures Masked(e, FlagMask7()) == Masked(f, FlagMask7())
  {
  }

  lemma AlikeDecode(e: bv64, f: bv64)
    requires Alike(e, f)
    ensures Decode(e) == Decode(f).(addr := FrameOf(e), bit7 := e & HUGE != 0)
  {
    hide Low, Ones, Masked, FlagMask7, Field8, Field12, Field52, Alike;
    OnesAre();
    AlikeFlags(e, f);
    AlikeSmall(e, f);
    AlikeHigh(e, f);
    LowAgree(Field8(e), Field8(f), 4);
    LowAgree(Field52(e), Field52(f), 11);
    AlikeBits(e, f);
  }

  lemma AlikeBits(e: bv64, f: bv64)
    requires Masked(e, FlagMask7()) == Masked(f, FlagMask7())
    ensures (e & 0x1 != 0 <==> f & 0x1 != 0) && (e & 0x2 != 0 <==> f & 0x2 != 0) && (e & 0x4 != 0 <==> f & 0x4 != 0)
    ensures (e & 0x8 != 0 <==> f & 0x8 != 0) && (e & 0x10 != 0 <==> f & 0x10 != 0) && (e & 0x20 != 0 <==> f & 0x20 != 0)
    ensures (e & 0x40 != 0 <==> f & 0x40 != 0) && (e & NO_EXECUTE != 0 <==> f & NO_EXECUTE != 0)
  {
  }

  /** The PAT bit of a large page is the lowest bit of its frame field. */
  lemma PatBit(entry: bv64)
    ensures Low(Field12(entry), 40) % 2 == 1 <==> entry & PAT_HUGE != 0
  {
    hide Low, Odd, Field12;
    LowestBit(Field12(entry), 40);
    OddField(entry);
  }

  lemma LowestBit(x: bv64, n: nat)
    requires n > 0
    ensures Low(x, n) % 2 == 1 <==> Odd(x)
  {
    hide Odd, Half;
  }

  lemma OddField(entry: bv64)
    ensures Odd(Field12(entry)) <==> entry & PAT_HUGE != 0
  {
  }

  lemma FlagsNoAddress(entry: bv64)
    ensures NoAddress(SplitFlags2M(entry))
  {
  }

  lemma SumInside(entry: bv64, i: bv64)
    requires Index(i)
    ensures (Block(entry) + (i << 12)) & !ADDR_MASK == 0
  {
  }

  predicate HasHuge(e: bv64) { e & HUGE != 0 }

  predicate HasPat(e: bv64) { e & PAT_HUGE != 0 }

  predicate Inside(a: bv64) { a & !ADDR_MASK == 0 }

  lemma PageInside(entry: bv64, i: bv64)
    requires Index(i)
    ensures Inside(PageIn(entry, i))
  {
  }

  lemma AlikeAt(a: bv64, entry: bv64)
    requires Inside(a)
    ensures Alike(SmallAt(a, entry), entry) && (HasHuge(SmallAt(a, entry)) <==> HasPat(entry))
  {
  }

  lemma Alike2M(entry: bv64, i: bv64)
    requires Index(i)
    ensures Alike(SplitEntry2M(entry, i), entry) && (HasHuge(SplitEntry2M(entry, i)) <==> HasPat(entry))
  {
    hide SmallAt, PageIn, Inside, Index, Alike, HasHuge, HasPat;
    PageInside(entry, i);
    AlikeAt(PageIn(entry, i), entry);
  }

  lemma AddressOfOr(a: bv64, flags: bv64)
    requires a & !ADDR_MASK == 0 && NoAddress(flags)
    ensures (a | flags) & ADDR_MASK == a
  {
  }

  lemma Addr2M(entry: bv64, i: bv64)
    requires Index(i)
    ensures SplitEntry2M(entry, i) & ADDR_MASK == Block(entry) + (i << 12)
  {
    hide SplitFlags2M, NoAddress;
    FlagsNoAddress(entry);
    SumInside(entry, i);
    AddressOfOr(Block(entry) + (i << 12), SplitFlags2M(entry));
  }

  lemma Offset2M(e: bv64, entry: bv64, i: bv64)
    requires Index(i) && e & ADDR_MASK == Block(entry) + (i << 12)
    ensures Masked(Field12(e), 0x1ff) == Masked(i, 0x1ff)
  {
  }

  lemma Upper2M(e: bv64, entry: bv64, i: bv64)
    requires Index(i) && e & ADDR_MASK == Block(entry) + (i << 12)
    ensures Masked(Upper(Field12(e)), 0x7fff_ffff) == Masked(Upper(Field12(entry)), 0x7fff_ffff)
  {
  }

  /** The frame of a page after the split: the large page's first frame and the index. */
  lemma Frame2M(entry: bv64, i: bv64)
    requires Index(i)
    ensures FrameOf(SplitEntry2M(entry, i)) == FrameOf(entry) / 0x200 * 0x200 + Low(i, 9)
  {
    hide Low, Ones, Masked, Field12, Block, Upper, SplitEntry2M, Index;
    OnesAre();
    var e, x, y := SplitEntry2M(entry, i), Field12(entry), Field12(SplitEntry2M(entry, i));
    Addr2M(entry, i);
    Offset2M(e, entry, i);
    Upper2M(e, entry, i);
    LowNine(x, 31);
    LowNine(y, 31);
    LowAgree(y, i, 9);
    LowAgree(Upper(y), Upper(x), 31);
    Cut(FrameOf(entry), Low(x, 9), Low(Upper(x), 31));
  }

  /** Splitting a 2 MiB page writes the entries of the model. */
  lemma Split2MCode(entry: bv64, i: bv64)
    requires Index(i)
    ensures Decode(SplitEntry2M(entry, i)) == Split2M(Decode(entry), Low(i, 9))
  {
    hide Low, Field12, FrameOf, SplitEntry2M, Index, Alike, Decode;
    Alike2M(entry, i);
    AlikeDecode(SplitEntry2M(entry, i), entry);
    Frame2M(entry, i);
    PatBit(entry);
    FrameField(entry);
  }

  lemma FrameField(e: bv64)
    ensures Decode(e).addr == FrameOf(e) == Low(Field12(e), 40)
  {
  }

  function Block1G(entry: bv64): bv64 { entry & HUGE_1G_MASK }

  lemma Sum1G(entry: bv64, i: bv64)
    requires Index(i)
    ensures (Block1G(entry) + (i << 21)) & !HUGE_2M_MASK == 0
  {
  }

  lemma Alike1G(entry: bv64, i: bv64)
    requires Index(i) && entry & PRESENT != 0
    ensures Alike(SplitEntry1G(entry, i), entry) && SplitEntry1G(entry, i) & HUGE != 0
  {
    hide SplitFlags1G, Index;
    Sum1G(entry, i);
    FlagsAfter1G(Block1G(entry) + (i << 21), entry);
  }

  lemma Flags1G(entry: bv64)
    ensures (SplitFlags1G(entry) | PRESENT | HUGE) & ADDR_MASK == entry & PAT_HUGE
  {
  }

  lemma AddressOfOr1G(a: bv64, flags: bv64, pat: bv64)
    requires a & !HUGE_2M_MASK == 0 && (flags | PRESENT | HUGE) & ADDR_MASK == pat
    ensures (a | flags | PRESENT | HUGE) & ADDR_MASK == a | pat
  {
  }

  lemma Addr1G(entry: bv64, i: bv64)
    requires Index(i)
    ensures SplitEntry1G(entry, i) & ADDR_MASK == (Block1G(entry) + (i << 21)) | (entry & PAT_HUGE)
  {
    hide SplitFlags1G;
    Flags1G(entry);
    Sum1G(entry, i);
    AddressOfOr1G(Block1G(entry) + (i << 21), SplitFlags1G(entry), entry & PAT_HUGE);
  }

  /** `e` has the address of the large page `entry`, index `i`, and the PAT bit of `entry`. */
  predicate Address1G(e: bv64, entry: bv64, i: bv64)
  {
    e & ADDR_MASK == (Block1G(entry) + (i << 21)) | (entry & PAT_HUGE)
  }

  function PatWord(entry: bv64): bv64 { if entry & PAT_HUGE != 0 then 1 else 0 }

  lemma Offset1G(e: bv64, entry: bv64, i: bv64)
    requires Index(i) && Address1G(e, entry, i)
    ensures Masked(Field12(e), 0x1ff) == Masked(PatWord(entry), 0x1ff)
  {
  }

  lemma Middle1G(e: bv64, entry: bv64, i: bv64)
    requires Index(i) && Address1G(e, entry, i)
    ensures Masked(Upper(Field12(e)), 0x1ff) == Masked(i, 0x1ff)
  {
  }

  lemma Upper1G(e: bv64, entry: bv64, i: bv64)
    requires Index(i) && Address1G(e, entry, i)
    ensures Masked(Upper(Upper(Field12(e))), 0x3f_ffff) == Masked(Upper(Upper(Field12(entry))), 0x3f_ffff)
  {
  }

  lemma PatNumber(entry: bv64)
    ensures Low(PatWord(entry), 9) == if entry & PAT_HUGE != 0 then 1 else 0
  {
    hide Low;
    LowZero(9);
    LowOne();
  }

  lemma LowOne()
    ensures Low(1, 9) == 1
  {
    LowZero(8);
    assert Half(1) == 0 && Odd(1);
  }

  lemma Cut1G(v: nat, offset: nat, middle: nat, upper: nat)
    requires offset < 0x200 && middle < 0x200 && v == offset + 0x200 * (middle + 0x200 * upper)
    ensures v / 0x4_0000 * 0x4_0000 == 0x4_0000 * upper
  {
  }

  /** The frame of a 2 MiB page after the split. */
  lemma Frame1G(entry: bv64, i: bv64)
    requires Index(i)
    ensures FrameOf(SplitEntry1G(entry, i)) == FrameOf(entry) / 0x4_0000 * 0x4_0000 + Low(i, 9) * 0x200
            + Low(PatWord(entry), 9)
  {
    hide Low, Ones, Masked, Field12, Block1G, Upper, SplitEntry1G, Index, Address1G, PatWord;
    OnesAre();
    var e, x, y := SplitEntry1G(entry, i), Field12(entry), Field12(SplitEntry1G(entry, i));
    assert Address1G(e, entry, i) by { Located1G(entry, i); }
    Offset1G(e, entry, i);
    Middle1G(e, entry, i);
    Upper1G(e, entry, i);
    LowNine(x, 31);
    LowNine(y, 31);
    LowNine(Upper(x), 22);
    LowNine(Upper(y), 22);
    LowAgree(y, PatWord(entry), 9);
    LowAgree(Upper(y), i, 9);
    LowAgree(Upper(Upper(y)), Upper(Upper(x)), 22);
    Cut1G(FrameOf(entry), Low(x, 9), Low(Upper(x), 9), Low(Upper(Upper(x)), 22));
  }

  lemma Located1G(entry: bv64, i: bv64)
    requires Index(i)
    ensures Address1G(SplitEntry1G(entry, i), entry, i)
  {
    hide SplitEntry1G, Index, Block1G;
    Addr1G(entry, i);
  }

  /** Splitting a 1 GiB page writes the entries of the model. */
  lemma Split1GCode(entry: bv64, i: bv64)
    requires Index(i) && entry & PRESENT != 0
    ensures Decode(SplitEntry1G(entry, i)) == Split1G(Decode(entry), Low(i, 9))
  {
    hide Low, Field12, FrameOf, SplitEntry1G, Index, Alike, Decode, PatWord;
    Alike1G(entry, i);
    AlikeDecode(SplitEntry1G(entry, i), entry);
    Frame1G(entry, i);
    PatNumber(entry);
    PatBit(entry);
    FrameField(entry);
    PresentField(entry);
  }

  lemma PresentField(e: bv64)
    ensures Decode(e).present <==> e & PRESENT != 0
  {
  }

  // -------------------------------------------------------------- other writes

  /** `protect` keeps the frame of the leaf and takes all else from the flags. */
  lemma ProtectCode(leaf: bv64, flags: bv64)
    requires NoAddress(flags)
    ensures Decode(MapEntry(leaf, flags)) == LeafWord(Mapping(Decode(leaf).addr, AttrsOf(Decode(flags))))
  {
    hide Decode, FrameOf, MapEntry, NoAddress;
    Map4KCode(leaf, flags);
    FrameField(leaf);
  }

  /** The entry that `child_table` and the splits write for a table in an aligned frame. */
  lemma TableCode(phys: bv64)
    requires phys & !ADDR_MASK == 0
    ensures Decode(phys | PRESENT | WRITABLE | USER) == TableWord(FrameOf(phys))
  {
    hide FrameOf;
    var flags := WRITABLE | USER;
    assert phys | PRESENT | WRITABLE | USER == MapEntry(phys, flags);
    Map4KCode(phys, flags);
    FlagsDecode();
  }

  lemma PlainFields(flags: bv64)
    requires Masked(flags, FlagMask()) == flags
    ensures Masked(Field8(flags), 0xf) == Masked(0, 0xf) && Masked(Field52(flags), 0x7ff) == Masked(0, 0x7ff)
  {
  }

  lemma PlainFlags(flags: bv64)
    requires Masked(flags, FlagMask()) == flags
    ensures Decode(flags).low == 0 && Decode(flags).high == 0
  {
    hide Low, Ones, Masked, FlagMask, Field8, Field12, Field52, Decode;
    OnesAre();
    PlainFields(flags);
    DecodeFields(flags);
    LowAgree(Field8(flags), 0, 4);
    LowAgree(Field52(flags), 0, 11);
    LowZero(4);
    LowZero(11);
  }

  /** The flags that the source passes for kernel and user pages are those of the model. */
  lemma FlagsDecode()
    ensures AttrsOf(Decode(PRESENT)) == RX && AttrsOf(Decode(PRESENT | NO_EXECUTE)) == RO
    ensures AttrsOf(Decode(PRESENT | WRITABLE | NO_EXECUTE)) == RW
    ensures AttrsOf(Decode(PRESENT | WRITABLE | NO_EXECUTE | PWT)) == WC
    ensures AttrsOf(Decode(PRESENT | WRITABLE | NO_EXECUTE | PCD)) == UC
    ensures AttrsOf(Decode(PRESENT | USER)) == RX.(user := true)
    ensures AttrsOf(Decode(PRESENT | USER | NO_EXECUTE)) == RO.(user := true)
    ensures AttrsOf(Decode(PRESENT | WRITABLE | USER | NO_EXECUTE)) == RW.(user := true)
    ensures AttrsOf(Decode(WRITABLE | USER)) == RX.(writable := true, user := true)
  {
    hide Low;
    PlainFlags(PRESENT);
    PlainFlags(PRESENT | NO_EXECUTE);
    PlainFlags(PRESENT | WRITABLE | NO_EXECUTE);
    PlainFlags(PRESENT | WRITABLE | NO_EXECUTE | PWT);
    PlainFlags(PRESENT | WRITABLE | NO_EXECUTE | PCD);
    PlainFlags(PRESENT | USER);
    PlainFlags(PRESENT | USER | NO_EXECUTE);
    PlainFlags(PRESENT | WRITABLE | USER | NO_EXECUTE);
    PlainFlags(WRITABLE | USER);
  }
}
