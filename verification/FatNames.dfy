/** Long-name records: how a name of 16-bit units is cut into directory slots, and that both
    directory readers put it back together. */
module FatNames {
  import opened Bytes
  import opened Wrappers
  import opened FatLayout
  import opened FatContent
  import opened FatDirectory

  predicate Forbidden(u: nat)
  {
    u < 0x20 || u == 0x22 || u == 0x2a || u == 0x2f || u == 0x3a || u == 0x3c || u == 0x3e || u == 0x3f
    || u == 0x5c || u == 0x7c
  }

  predicate Acceptable(units: seq<nat>)
  {
    1 <= |units| <= 255 && forall i | 0 <= i < |units| :: !Forbidden(units[i])
  }

  ghost predicate Utf16(units: seq<nat>)
  {
    forall i | 0 <= i < |units| :: units[i] < 0x1_0000
  }

  function RecordCount(n: nat): (r: nat)
    requires n <= 255
    ensures r <= 20 && (r - 1) * UNITS_PER_RECORD <= n < r * UNITS_PER_RECORD
  {
    (n + 1 + UNITS_PER_RECORD - 1) / UNITS_PER_RECORD
  }

  /** Unit `k` of the padded name: the name, a zero, then filler. */
  function UnitAt(units: seq<nat>, k: nat): nat
  {
    if k < |units| then units[k] else if k == |units| then 0 else 0xffff
  }

  function ChecksumStep(sum: Byte, b: Byte): Byte
  {
    ((sum as int) % 2 * 128 + (sum as int) / 2 + (b as int)) % 256
  }

  function Checksum(short: seq<Byte>): Byte
  {
    if short == [] then 0 else ChecksumStep(Checksum(short[..|short| - 1]), short[|short| - 1])
  }

  function Lead(order: nat, count: nat): Byte
    requires order <= 20
  {
    if order == count then order + 0x40 else order
  }

  /** A record slot before its units are filled in. */
  function Header(order: nat, count: nat, checksum: Byte): (r: Slot)
    requires order <= 20
  {
    Zeros(SLOT_SIZE)[0 := Lead(order, count)][11 := ATTR_LONG_NAME][13 := checksum]
  }

  /** The slot is part `order` of `count` of the name `units`. */
  ghost predicate IsRecord(e: Slot, units: seq<nat>, order: nat, count: nat, checksum: Byte)
    requires 1 <= order <= count <= 20
  {
    && e[0] == Lead(order, count) && e[11] == ATTR_LONG_NAME && e[12] == 0 && e[13] == checksum
    && e[26] == 0 && e[27] == 0
    && forall i | 0 <= i < UNITS_PER_RECORD :: U16(e, Position(i)) == UnitAt(units, (order - 1) * UNITS_PER_RECORD + i)
  }

  /** `recs` spells `units` in descending part order, as the directory stores it. */
  ghost predicate AreRecords(recs: seq<Slot>, units: seq<nat>, short: seq<Byte>)
  {
    && |units| <= 255 && |recs| == RecordCount(|units|)
    && forall j | 0 <= j < |recs| :: IsRecord(recs[j], units, |recs| - j, |recs|, Checksum(short))
  }

  lemma PutUnit(e: Slot, i: nat, unit: nat)
    requires i < UNITS_PER_RECORD && unit < 0x1_0000
    ensures var r := Splice(e, Position(i), Le16(unit));
            && U16(r, Position(i)) == unit
            && (forall j | 0 <= j < UNITS_PER_RECORD && j != i :: U16(r, Position(j)) == U16(e, Position(j)))
            && r[0] == e[0] && r[11] == e[11] && r[12] == e[12] && r[13] == e[13] && r[26] == e[26] && r[27] == e[27]
  {
  }

  method BuildRecord(units: seq<nat>, order: nat, count: nat, checksum: Byte) returns (entry: Slot)
    requires 1 <= order <= count <= 20 && Utf16(units)
    ensures IsRecord(entry, units, order, count, checksum)
  {
    entry := Header(order, count, checksum);
    for i := 0 to UNITS_PER_RECORD
      invariant entry[0] == Lead(order, count) && entry[11] == ATTR_LONG_NAME && entry[12] == 0
      invariant entry[13] == checksum && entry[26] == 0 && entry[27] == 0
      invariant forall j | 0 <= j < i :: U16(entry, Position(j)) == UnitAt(units, (order - 1) * UNITS_PER_RECORD + j)
    {
      var unit := UnitAt(units, (order - 1) * UNITS_PER_RECORD + i);
      PutUnit(entry, i, unit);
      entry := Splice(entry, Position(i), Le16(unit));
    }
  }

  method ComputeChecksum(short: seq<Byte>) returns (sum: Byte)
    ensures sum == Checksum(short)
  {
    sum := 0;
    for i := 0 to |short|
      invariant sum == Checksum(short[..i])
    {
      assert short[..i + 1][..i] == short[..i];
      sum := ChecksumStep(sum, short[i]);
    }
    assert short[..|short|] == short;
  }

  /** `lfn_records`: refuses exactly the unacceptable names and otherwise spells the name. */
  method LfnRecords(units: seq<nat>, short: seq<Byte>) returns (r: Result<seq<Slot>, FatError>)
    requires Utf16(units)
    ensures Acceptable(units) ==> r.Ok? && AreRecords(r.value, units, short)
    ensures !Acceptable(units) ==> r == Err(InvalidName)
  {
    if |units| == 0 || |units| > 255 {
      return Err(InvalidName);
    }
    if exists i | 0 <= i < |units| :: Forbidden(units[i]) {
      return Err(InvalidName);
    }
    var count := RecordCount(|units|);
    var checksum := ComputeChecksum(short);
    var records: seq<Slot> := [];
    var order := count;
    while order > 0
      invariant 0 <= order <= count && |records| == count - order
      invariant forall j | 0 <= j < |records| :: IsRecord(records[j], units, count - j, count, checksum)
    {
      var entry := BuildRecord(units, order, count, checksum);
      records := records + [entry];
      order := order - 1;
    }
    return Ok(records);
  }

  // ------------------------------------------------------------ round trip

  /** The decoder's buffer once the parts above `lo` have been read. */
  function Filled(units: seq<nat>, lo: nat, count: nat): (r: seq<nat>)
    ensures |r| == LFN_UNITS
  {
    seq(LFN_UNITS, k requires 0 <= k =>
      if lo * UNITS_PER_RECORD <= k < count * UNITS_PER_RECORD then UnitAt(units, k) else 0xffff)
  }

  lemma StoreRecord(units: seq<nat>, order: nat, count: nat, e: Slot, checksum: Byte)
    requires 1 <= order <= count <= 20 && IsRecord(e, units, order, count, checksum)
    ensures StoreUnits(Filled(units, order, count), order, e) == Filled(units, order - 1, count)
    ensures order == count ==> Filled(units, order, count) == Blank()
  {
  }

  lemma RecordStep(st: Scan, e: Slot, n: nat, units: seq<nat>, order: nat, count: nat, checksum: Byte)
    requires |st.lfn| == LFN_UNITS && !st.ended
    requires 1 <= order <= count <= 20 && IsRecord(e, units, order, count, checksum)
    requires order < count ==> st.have && st.lfn == Filled(units, order, count)
    ensures Step(st, e, n) == st.(lfn := Filled(units, order - 1, count), have := true)
  {
    StoreRecord(units, order, count, e, checksum);
    assert e[0] % 32 == order && (e[0] / 64 % 2 == 1 <==> order == count);
  }

  /** Reading part of the records lists nothing and collects the matching part of the name. */
  lemma {:induction false} RecordsRun(slots: seq<Slot>, at: nat, recs: seq<Slot>, units: seq<nat>, short: seq<Byte>,
                                      j: nat)
    requires AreRecords(recs, units, short) && j <= |recs| && at + j <= |slots|
    requires forall i | 0 <= i < j :: slots[at + i] == recs[i]
    requires !Run(slots, at).ended
    ensures var st := Run(slots, at + j);
            && !st.ended && st.out == Run(slots, at).out
            && (0 < j ==> st.have && st.lfn == Filled(units, |recs| - j, |recs|))
  {
    hide Step, Filled, IsRecord;
    if j > 0 {
      RecordsRun(slots, at, recs, units, short, j - 1);
      RecordStep(Run(slots, at + j - 1), recs[j - 1], at + j - 1, units, |recs| - j + 1, |recs|, Checksum(short));
    }
  }

  /** What the readers make of the name `units` behind the short name `short`: the units before the
      first 0xFFFF or, when there are none, the short name. */
  function ListedName(units: seq<nat>, short: seq<Byte>): seq<nat>
    requires |short| >= 11
  {
    if NameEnd(units, 0) > 0 then units[..NameEnd(units, 0)] else ShortName(short)
  }

  /** A name lists as itself exactly when no unit is 0xFFFF. */
  lemma ListedAsItself(units: seq<nat>, short: seq<Byte>)
    requires Acceptable(units) && |short| >= 11
    ensures ListedName(units, short) == units <==> forall i | 0 <= i < |units| :: units[i] != 0xffff
  {
    if NameEnd(units, 0) == 0 {
      assert units[0] == 0xffff;
      assert |ShortName(short)| > 0 ==> ShortName(short)[0] < 256;
    }
  }

  lemma ListedAlias(units: seq<nat>, e: Slot)
    ensures ListedName(units, e) == ListedName(units, e[..11])
  {
    assert e[..11][..8] == e[..8] && e[..11][8..11] == e[8..11];
  }

  lemma CollectedName(units: seq<nat>, e: Slot)
    requires Acceptable(units)
    ensures EntryName(Filled(units, 0, RecordCount(|units|)), true, e) == ListedName(units, e)
  {
    var lfn := Filled(units, 0, RecordCount(|units|));
    var n, m := NameEnd(lfn, 0), NameEnd(units, 0);
    assert forall k | 0 <= k <= |units| :: lfn[k] == UnitAt(units, k);
    assert lfn[|units|] == 0;
    assert lfn[m] == UnitAt(units, m);
    assert n <= m;
    assert lfn[n] == UnitAt(units, n);
    assert lfn[..n] == units[..m];
  }

  /** The records of any accepted name followed by its short entry list as `ListedName`, wherever in
      the directory they start and whatever name fragment precedes them: the name itself exactly
      when it holds no 0xFFFF unit. */
  lemma LongNameRoundTrip(slots: seq<Slot>, at: nat, recs: seq<Slot>, units: seq<nat>, short: seq<Byte>)
    requires Acceptable(units) && AreRecords(recs, units, short)
    requires at + |recs| < |slots| && !Run(slots, at).ended && IsShort(slots[at + |recs|])
    requires forall i | 0 <= i < |recs| :: slots[at + i] == recs[i]
    ensures Lists(slots, at + |recs|)
    ensures Run(slots, at + |recs| + 1).out == Run(slots, at).out + [ItemAt(slots, at + |recs|)]
    ensures ItemAt(slots, at + |recs|).name == ListedName(units, slots[at + |recs|])
    ensures ItemAt(slots, at + |recs|).name == units <==> forall i | 0 <= i < |units| :: units[i] != 0xffff
  {
    hide Step, Filled, IsRecord, EntryName, ListedName;
    RecordsRun(slots, at, recs, units, short, |recs|);
    ListsStep(slots, at + |recs|);
    CollectedName(units, slots[at + |recs|]);
    ListedAsItself(units, slots[at + |recs|]);
  }
}
