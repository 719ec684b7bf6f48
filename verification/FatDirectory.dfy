/** Directory slots and their decoder.

    Both directory readers of the driver walk the 32-byte slots of a directory in order and carry a
    partly collected long name. `Run(slots, n)` is that walk's state after `n` slots. Names are
    sequences of 16-bit units. */
module FatDirectory {
  import opened Bytes
  import opened FatContent

  const LFN_UNITS: nat := 260
  const UNITS_PER_RECORD: nat := 13
  const ATTR_LONG_NAME := 0x0f
  const DELETED := 0xe5

  type Slot = s: seq<Byte> | |s| == SLOT_SIZE witness Zeros(SLOT_SIZE)

  /** One listed entry; `slot` is where its short record stands in the directory. */
  datatype Item = Item(slot: nat, name: seq<nat>, isDir: bool, size: nat, first: nat)

  datatype Scan = Scan(out: seq<Item>, lfn: seq<nat>, have: bool, ended: bool)

  function Position(i: nat): (r: nat)
    requires i < UNITS_PER_RECORD
    ensures r + 2 <= SLOT_SIZE
  {
    if i < 5 then 1 + 2 * i else if i < 11 then 14 + 2 * (i - 5) else 28 + 2 * (i - 11)
  }

  function Blank(): (r: seq<nat>)
    ensures |r| == LFN_UNITS
  {
    seq(LFN_UNITS, _ => 0xffff)
  }

  function StoredUnit(lfn: seq<nat>, order: nat, e: Slot, k: nat): nat
    requires |lfn| == LFN_UNITS && 1 <= order <= 20 && k < LFN_UNITS
  {
    if (order - 1) * UNITS_PER_RECORD <= k < order * UNITS_PER_RECORD
    then U16(e, Position(k - (order - 1) * UNITS_PER_RECORD)) else lfn[k]
  }

  /** `lfn` with the thirteen units of record `e` stored as part number `order`. */
  function StoreUnits(lfn: seq<nat>, order: nat, e: Slot): (r: seq<nat>)
    requires |lfn| == LFN_UNITS && 1 <= order <= 20
    ensures |r| == LFN_UNITS
  {
    seq(LFN_UNITS, k requires 0 <= k < LFN_UNITS => StoredUnit(lfn, order, e, k))
  }

  /** Index of the first terminator (0) or filler (0xFFFF) at or after `from`. */
  function NameEnd(lfn: seq<nat>, from: nat): (r: nat)
    requires from <= |lfn|
    ensures from <= r <= |lfn|
    ensures forall k | from <= k < r :: lfn[k] != 0 && lfn[k] != 0xffff
    ensures r < |lfn| ==> lfn[r] == 0 || lfn[r] == 0xffff
    decreases |lfn| - from
  {
    if from == |lfn| || lfn[from] == 0 || lfn[from] == 0xffff then from else NameEnd(lfn, from + 1)
  }

  function UntilSpace(b: seq<Byte>): (r: seq<nat>)
    ensures forall k | 0 <= k < |r| :: r[k] < 256
  {
    if b == [] || b[0] == 0x20 then [] else [b[0] as nat] + UntilSpace(b[1..])
  }

  /** What an 11-byte short name, or a record that starts with one, reads as. */
  function ShortName(e: seq<Byte>): (r: seq<nat>)
    requires |e| >= 11
    ensures forall k | 0 <= k < |r| :: r[k] < 256
  {
    var base, ext := UntilSpace(e[..8]), UntilSpace(e[8..11]);
    if ext == [] then base else base + [0x2e] + ext
  }

  function EntryName(lfn: seq<nat>, have: bool, e: Slot): seq<nat>
  {
    if have && NameEnd(lfn, 0) > 0 then lfn[..NameEnd(lfn, 0)] else ShortName(e)
  }

  function EntryFirst(e: Slot): nat { U16(e, 20) * 0x1_0000 + U16(e, 26) }

  predicate IsLfn(e: Slot) { e[11] == ATTR_LONG_NAME }

  /** A record that names something: neither free, nor deleted, nor a long-name part, nor a label. */
  predicate IsShort(e: Slot)
  {
    e[0] != 0 && e[0] != DELETED && !IsLfn(e) && e[11] / 8 % 2 == 0
  }

  /** One slot of the walk (`directory_entries` and `find_named_entry` share it). */
  function Step(st: Scan, e: Slot, n: nat): (r: Scan)
    requires |st.lfn| == LFN_UNITS
    ensures |r.lfn| == LFN_UNITS
  {
    if st.ended then st
    else if e[0] == 0 then st.(ended := true)
    else if e[0] == DELETED then st.(have := false)
    else if IsLfn(e) then
      var order := e[0] % 32;
      if order == 0 || order > 20 then st.(have := false)
      else
        var st' := if e[0] / 64 % 2 == 1 then st.(lfn := Blank(), have := true) else st;
        if st'.have then st'.(lfn := StoreUnits(st'.lfn, order, e)) else st'
    else if e[11] / 8 % 2 == 1 then st.(have := false)
    else
      st.(out := st.out + [Item(n, EntryName(st.lfn, st.have, e), e[11] / 16 % 2 == 1, U32(e, 28), EntryFirst(e))],
          have := false)
  }

  function Start(): Scan { Scan([], Blank(), false, false) }

  function Run(slots: seq<Slot>, n: nat): (r: Scan)
    requires n <= |slots|
    ensures |r.lfn| == LFN_UNITS
  {
    if n == 0 then Start() else Step(Run(slots, n - 1), slots[n - 1], n - 1)
  }

  /** Everything listed in a directory, dot entries included. */
  function Listing(slots: seq<Slot>): seq<Item> { Run(slots, |slots|).out }

  predicate IsDot(name: seq<nat>) { name == [0x2e] || name == [0x2e, 0x2e] }

  // ------------------------------------------------------- about the walk

  lemma {:induction false} RunPrefix(a: seq<Slot>, b: seq<Slot>, n: nat)
    requires n <= |a| && n <= |b|
    requires forall i | 0 <= i < n :: a[i] == b[i]
    ensures Run(a, n) == Run(b, n)
  {
    hide Step;
    if n > 0 {
      RunPrefix(a, b, n - 1);
    }
  }

  lemma {:induction false} RunEnded(slots: seq<Slot>, m: nat, n: nat)
    requires m <= n <= |slots| && Run(slots, m).ended
    ensures Run(slots, n) == Run(slots, m)
  {
    if m < n {
      RunEnded(slots, m, n - 1);
    }
  }

  /** The walk ends at the first slot that starts with zero. */
  lemma {:induction false} RunEndsIff(slots: seq<Slot>, n: nat)
    requires n <= |slots|
    ensures Run(slots, n).ended <==> exists i :: 0 <= i < n && slots[i][0] == 0
  {
    if n > 0 {
      RunEndsIff(slots, n - 1);
    }
  }

  lemma StepGrows(st: Scan, e: Slot, n: nat)
    requires |st.lfn| == LFN_UNITS
    ensures st.out <= Step(st, e, n).out
  {
  }

  lemma {:induction false} RunGrows(slots: seq<Slot>, m: nat, n: nat)
    requires m <= n <= |slots|
    ensures Run(slots, m).out <= Run(slots, n).out
  {
    hide Step;
    if m < n {
      RunGrows(slots, m, n - 1);
      StepGrows(Run(slots, n - 1), slots[n - 1], n - 1);
    }
  }

  /** The record at slot `k` as the walk lists it. */
  function ItemAt(slots: seq<Slot>, k: nat): Item
    requires k < |slots|
  {
    var e := slots[k];
    Item(k, EntryName(Run(slots, k).lfn, Run(slots, k).have, e), e[11] / 16 % 2 == 1, U32(e, 28), EntryFirst(e))
  }

  /** Slot `k` is reached by the walk and lists an entry. */
  predicate Lists(slots: seq<Slot>, k: nat)
    requires k < |slots|
  {
    !Run(slots, k).ended && IsShort(slots[k])
  }

  /** The listing holds, in order of position, the entry of every slot that lists one. */
  lemma {:induction false} ListingItems(slots: seq<Slot>, n: nat, p: nat)
    requires n <= |slots| && p < |Run(slots, n).out|
    ensures var it := Run(slots, n).out[p];
            it.slot < n && Lists(slots, it.slot) && it == ItemAt(slots, it.slot) && p == |Run(slots, it.slot).out|
  {
    if p < |Run(slots, n - 1).out| {
      ListingItems(slots, n - 1, p);
      RunGrows(slots, n - 1, n);
    }
  }

  lemma ListsStep(slots: seq<Slot>, k: nat)
    requires k < |slots| && Lists(slots, k)
    ensures Run(slots, k + 1) == Run(slots, k).(out := Run(slots, k).out + [ItemAt(slots, k)], have := false)
  {
  }

  // ------------------------------------------------------------- deletion

  function Deleted(e: Slot): (r: Slot)
  {
    [DELETED] + e[1..]
  }

  /** `slots` with the records of `[from, to)` marked deleted. */
  function Tombstoned(slots: seq<Slot>, from: nat, to: nat): (r: seq<Slot>)
    requires from <= to <= |slots|
    ensures |r| == |slots|
    ensures forall i | 0 <= i < |r| :: r[i] == if from <= i < to then Deleted(slots[i]) else slots[i]
  {
    seq(|slots|, i requires 0 <= i < |slots| => if from <= i < to then Deleted(slots[i]) else slots[i])
  }

  /** First slot from which on everything up to `n` is a live long-name record: the records that
      belong to the entry at `n`. */
  function PendingStart(slots: seq<Slot>, n: nat): (r: nat)
    requires n <= |slots|
    ensures r <= n
    ensures forall i | r <= i < n :: IsLfn(slots[i]) && slots[i][0] != DELETED && slots[i][0] != 0
  {
    if n == 0 || slots[n - 1][0] == 0 || slots[n - 1][0] == DELETED || !IsLfn(slots[n - 1]) then n
    else PendingStart(slots, n - 1)
  }

  ghost predicate SameUpToBuffer(a: Scan, b: Scan)
  {
    a.have == b.have && a.ended == b.ended && (a.have ==> a.lfn == b.lfn)
  }

  lemma {:induction false} TombstoneRun(slots: seq<Slot>, from: nat, to: nat, n: nat)
    requires from <= n <= to <= |slots|
    requires forall i | from <= i < to :: slots[i][0] != 0 && IsLfn(slots[i])
    ensures var r := Tombstoned(slots, from, to);
            && Run(r, n).out == Run(slots, n).out && Run(r, n).ended == Run(slots, n).ended
            && (from < n && !Run(r, n).ended ==> !Run(r, n).have)
  {
    var r := Tombstoned(slots, from, to);
    if n == from {
      RunPrefix(r, slots, n);
    } else {
      TombstoneRun(slots, from, to, n - 1);
    }
  }

  /** The listing without its entry at position `p`. */
  function Without(out: seq<Item>, p: nat): seq<Item>
    requires p < |out|
  {
    out[..p] + out[p + 1..]
  }

  lemma DropStep(a: Scan, b: Scan, e: Slot, n: nat, p: nat)
    requires |a.lfn| == |b.lfn| == LFN_UNITS && SameUpToBuffer(a, b)
    requires p < |a.out| && b.out == Without(a.out, p)
    ensures SameUpToBuffer(Step(a, e, n), Step(b, e, n))
    ensures p < |Step(a, e, n).out| && Step(b, e, n).out == Without(Step(a, e, n).out, p)
  {
  }

  lemma RemovalBase(slots: seq<Slot>, k: nat)
    requires k < |slots| && Lists(slots, k)
    ensures var r := Tombstoned(slots, PendingStart(slots, k), k + 1);
            && Run(r, k + 1).out == Run(slots, k).out
            && SameUpToBuffer(Run(r, k + 1), Run(slots, k + 1))
  {
    var m := PendingStart(slots, k);
    var r := Tombstoned(slots, m, k + 1);
    TombstoneRun(slots, m, k, k);
    RunPrefix(r, Tombstoned(slots, m, k), k);
  }

  /** Deleting an entry together with its long-name records takes exactly that entry off the listing. */
  lemma {:induction false} RemovalRun(slots: seq<Slot>, k: nat, n: nat)
    requires k < n <= |slots| && Lists(slots, k)
    ensures var r, p := Tombstoned(slots, PendingStart(slots, k), k + 1), |Run(slots, k).out|;
            && p < |Run(slots, n).out|
            && Run(r, n).out == Without(Run(slots, n).out, p)
            && SameUpToBuffer(Run(r, n), Run(slots, n))
  {
    hide Step;
    var r, p := Tombstoned(slots, PendingStart(slots, k), k + 1), |Run(slots, k).out|;
    if n == k + 1 {
      RemovalBase(slots, k);
      ListsStep(slots, k);
    } else {
      RemovalRun(slots, k, n - 1);
      DropStep(Run(slots, n - 1), Run(r, n - 1), slots[n - 1], n - 1, p);
    }
  }

  // ------------------------------------------------------------- metadata

  /** `e` with first cluster and size replaced, as `write_entry_metadata` writes it. */
  function WithMetadata(e: Slot, first: nat, size: nat): (r: Slot)
    requires first < 0x1_0000_0000 && size < 0x1_0000_0000
  {
    Splice(Splice(Splice(e, 20, Le16(first / 0x1_0000)), 26, Le16(first % 0x1_0000)), 28, Le32(size))
  }

  lemma MetadataFields(e: Slot, first: nat, size: nat)
    requires first < 0x1_0000_0000 && size < 0x1_0000_0000
    ensures var r := WithMetadata(e, first, size);
            && EntryFirst(r) == first && U32(r, 28) == size
            && r[..20] == e[..20]
  {
    var a := Splice(e, 20, Le16(first / 0x1_0000));
    var b := Splice(a, 26, Le16(first % 0x1_0000));
    var r := Splice(b, 28, Le32(size));
    assert U16(r, 20) == U16(Le16(first / 0x1_0000), 0);
    assert U16(r, 26) == U16(Le16(first % 0x1_0000), 0);
    U32Spliced(b, 28, size);
  }

  lemma NameKept(e: Slot, r: Slot, lfn: seq<nat>, have: bool)
    requires e[..20] == r[..20]
    ensures EntryName(lfn, have, e) == EntryName(lfn, have, r)
    ensures e[0] == r[0] && e[11] == r[11]
  {
    assert e[..8] == e[..20][..8] == r[..20][..8] == r[..8];
    assert e[8..11] == e[..20][8..11] == r[..20][8..11] == r[8..11];
    assert e[0] == e[..20][0] == r[..20][0];
    assert e[11] == e[..20][11] == r[..20][11];
  }

  lemma UpdateStep(a: Scan, b: Scan, e: Slot, n: nat, p: nat, x: Item)
    requires |a.lfn| == LFN_UNITS && p < |a.out| && b == a.(out := a.out[p := x])
    ensures p < |Step(a, e, n).out| && Step(b, e, n) == Step(a, e, n).(out := Step(a, e, n).out[p := x])
  {
  }

  lemma MetadataBase(slots: seq<Slot>, k: nat, first: nat, size: nat)
    requires k < |slots| && Lists(slots, k)
    requires first < 0x1_0000_0000 && size < 0x1_0000_0000
    ensures var r, x := slots[k := WithMetadata(slots[k], first, size)],
            ItemAt(slots, k).(first := first, size := size);
            Run(r, k + 1) == Run(slots, k).(out := Run(slots, k).out + [x], have := false)
  {
    var r := slots[k := WithMetadata(slots[k], first, size)];
    RunPrefix(slots, r, k);
    MetadataFields(slots[k], first, size);
    NameKept(slots[k], r[k], Run(slots, k).lfn, Run(slots, k).have);
  }

  /** Rewriting an entry's metadata changes that item's size and cluster and nothing else. */
  lemma {:induction false} MetadataRun(slots: seq<Slot>, k: nat, first: nat, size: nat, n: nat)
    requires k < n <= |slots| && Lists(slots, k)
    requires first < 0x1_0000_0000 && size < 0x1_0000_0000
    ensures var r, p := slots[k := WithMetadata(slots[k], first, size)], |Run(slots, k).out|;
            && p < |Run(slots, n).out|
            && Run(r, n) == Run(slots, n).(out := Run(slots, n).out[p :=
               ItemAt(slots, k).(first := first, size := size)])
  {
    hide Step;
    var r, p := slots[k := WithMetadata(slots[k], first, size)], |Run(slots, k).out|;
    var x := ItemAt(slots, k).(first := first, size := size);
    if n == k + 1 {
      MetadataBase(slots, k, first, size);
      ListsStep(slots, k);
    } else {
      MetadataRun(slots, k, first, size, n - 1);
      UpdateStep(Run(slots, n - 1), Run(r, n - 1), slots[n - 1], n - 1, p, x);
    }
  }
}
