/** Lemmas that carry the creation of a file or directory to the checked volume. */
module FatCreate {
  import opened Bytes
  import opened Wrappers
  import opened Rows
  import opened FatChains
  import opened FatLayout
  import opened FatContent
  import opened FatDirectory
  import opened FatNames
  import opened FatTree
  import opened FatVolume
  import opened FatFsck
  import opened FatSteps
  import opened FatWrite
  import opened FatRemove

  const ATTR_ARCHIVE := 0x20
  const ATTR_DIRECTORY := 0x10

  /** An 11-byte short name that neither reads as unused nor as deleted. */
  predicate ShortOk(short: seq<Byte>)
  {
    |short| == 11 && short[0] != 0 && short[0] != DELETED
  }

  /** A short record with nothing but a name and attributes. */
  function BareEntry(short: seq<Byte>, attr: Byte): (e: Slot)
    requires |short| == 11
    ensures e[..11] == short && e[11] == attr && forall i | 12 <= i < SLOT_SIZE :: e[i] == 0
  {
    short + [attr] + Zeros(20)
  }

  /** A short record of a directory stored from cluster `c` on. */
  function DirEntry(short: seq<Byte>, c: nat): (e: Slot)
    requires |short| == 11 && c < 0x1_0000_0000
    ensures e[0] == short[0] && e[11] == ATTR_DIRECTORY && EntryFirst(e) == c && U32(e, 28) == 0 && e[..11] == short
  {
    var b := BareEntry(short, ATTR_DIRECTORY);
    MetadataFields(b, c, 0);
    NameKept(b, WithMetadata(b, c, 0), [], false);
    var e := WithMetadata(b, c, 0);
    assert e[..11] == e[..20][..11] == b[..20][..11] == b[..11];
    e
  }

  /** The item a new entry called `name` lists as. */
  function NewEntry(slot: nat, name: seq<nat>, isDir: bool, first: nat): Item { Item(slot, name, isDir, 0, first) }

  // ------------------------------------------------------------ dot entries

  function DotName(): (r: seq<Byte>)
    ensures |r| == 11
  {
    [0x2e] + seq(10, _ => 0x20)
  }

  function DotDotName(): (r: seq<Byte>)
    ensures |r| == 11
  {
    [0x2e, 0x2e] + seq(9, _ => 0x20)
  }

  lemma DotShortNames(e: Slot)
    ensures e[..11] == DotName() ==> ShortName(e) == [0x2e]
    ensures e[..11] == DotDotName() ==> ShortName(e) == [0x2e, 0x2e]
  {
    assert e[..8] == e[..11][..8] && e[8..11] == e[..11][8..11];
    if e[..11] == DotName() {
      assert UntilSpace(e[..8][1..]) == [];
      assert UntilSpace(e[8..11]) == [];
    }
    if e[..11] == DotDotName() {
      assert UntilSpace(e[..8][1..][1..]) == [];
      assert UntilSpace(e[..8][1..]) == [0x2e];
      assert UntilSpace(e[8..11]) == [];
    }
  }

  /** A new directory cluster lists its two dot entries and nothing else. */
  lemma DotListing(slots: seq<Slot>, c: nat, parent: nat)
    requires |slots| > 2 && c < 0x1_0000_0000 && parent < 0x1_0000_0000
    requires slots[0] == DirEntry(DotName(), c) && slots[1] == DirEntry(DotDotName(), parent) && slots[2][0] == 0
    ensures Listing(slots) == [Item(0, [0x2e], true, 0, c), Item(1, [0x2e, 0x2e], true, 0, parent)]
  {
    hide DirEntry, ShortName;
    DotShortNames(slots[0]);
    DotShortNames(slots[1]);
    assert Run(slots, 0) == Start();
    ListsStep(slots, 0);
    ListsStep(slots, 1);
    var a, b := ItemAt(slots, 0), ItemAt(slots, 1);
    assert a.name == [0x2e] && b.name == [0x2e, 0x2e];
    assert Run(slots, 2).out == [a, b];
    EndedAt(slots, 2);
  }

  /** The cluster of a new directory. */
  function DirCluster(size: nat, c: nat, parent: nat): (r: seq<Byte>)
    requires size >= 64 && c < 0x1_0000_0000 && parent < 0x1_0000_0000
    ensures |r| == size
  {
    Splice(Splice(Zeros(size), 0, DirEntry(DotName(), c)), SLOT_SIZE, DirEntry(DotDotName(), parent))
  }

  /** Exactly the two dot entries: the first leads to the directory itself, the second to its parent. */
  ghost predicate DotItems(items: seq<Item>, c: nat, parent: nat)
  {
    items == [Item(0, [0x2e], true, 0, c), Item(1, [0x2e, 0x2e], true, 0, parent)]
  }

  lemma DotsOnly(items: seq<Item>, c: nat, parent: nat)
    requires DotItems(items, c, parent)
    ensures OnlyDots(items) && SlotsDistinct(items)
  {
  }

  lemma DirClusterListing(g: Geometry, v: Vol, c: nat, parent: nat)
    requires VolOk(g, v) && 2 <= c < |v.fat| && parent < |v.fat| && v.data[c] == DirCluster(g.ClusterBytes(), c, parent)
    ensures DotItems(Shown(g, v, [c]), c, parent)
  {
    hide DirEntry, Listing, Slots, Flatten, Row;
    var slots := Slots(g, v, [c]);
    SlotRead(g, v, [c], 0, 0);
    SlotRead(g, v, [c], 0, 1);
    SlotRead(g, v, [c], 0, 2);
    RowZero(SlotsPerCluster(g));
    var b := v.data[c];
    assert slots[0] == b[0..32] == DirEntry(DotName(), c);
    assert slots[1] == b[32..64] == DirEntry(DotDotName(), parent);
    assert slots[2][0] == b[64] == 0;
    DotListing(slots, c, parent);
  }

  lemma RowZero(n: nat)
    ensures Row(0, n) == 0
  {
  }

  // ------------------------------------------------------- the grown directory

  /** A slot behind the old directory is new. */
  lemma NewSlotFresh(slots: seq<Slot>, it: Item)
    requires |slots| <= it.slot
    ensures FreshSlot(Listing(slots), it)
  {
    hide Step;
    forall p | 0 <= p < |Listing(slots)| ensures Listing(slots)[p].slot != it.slot {
      ListingItems(slots, |slots|, p);
    }
  }

  lemma AppendKeepsData(g: Geometry, v: Vol, v': Vol, t: Tree, d: nat, added: seq<nat>, c: nat)
    requires VolOk(g, v) && VolOk(g, v') && MembersOk(t) && CoverOk(v.fat, t) && d in t.chains
    requires forall i | 0 <= i < |added| :: 2 <= added[i] < |v.fat| && v.fat[added[i]] == 0
    requires forall x | 0 <= x < |v.fat| && x !in t.chains[d] + added && x != c :: v'.data[x] == v.data[x]
    requires c != 0 ==> 2 <= c < |v.fat| && v.fat[c] == 0
    ensures DataKept(v, v', t, {d})
  {
  }

  /** The appended directory, seen from the volume before. */
  lemma FileAppended(g: Geometry, v: Vol, v': Vol, t: Tree, d: nat, added: seq<nat>, it: Item)
    requires Fsck(g, v, t) && d in t.depth && d in t.chains && IsChain(v.fat, t.chains[d]) && VolOk(g, v)
    requires DirGrown(g, v, v', t.chains[d], added, it)
    ensures EntryGrown(g, v, v', t, d, added, it, 0)
  {
    hide Shown, NextOf, TreeOk, HeadsOk, DataKept, MembersOk, CoverOk;
    AppendKeepsData(g, v, v', t, d, added, 0);
  }

  /** A new file was appended. */
  lemma FileCreated(g: Geometry, v: Vol, v': Vol, t: Tree, d: nat, added: seq<nat>, it: Item)
    requires Fsck(g, v, t) && d in t.depth && d in t.chains && IsChain(v.fat, t.chains[d]) && VolOk(g, v)
    requires DirGrown(g, v, v', t.chains[d], added, it) && Row(|t.chains[d]|, SlotsPerCluster(g)) <= it.slot
    requires it.first == 0 && it.size == 0 && !it.isDir
    ensures var t' := TreeAfterAdd(t, d, added, it.slot, 0);
            Fsck(g, v', t') && d in t'.chains && d in t'.depth && AddedEntry(g, v, t, v', t', d, it)
  {
    hide Shown, Slots, IsPath, Fsck, DirGrown, EntryGrown, FilesKept, DirsKept;
    FileAppended(g, v, v', t, d, added, it);
    NoRootZero(g, v, t);
    GrownShown(g, v, v', t, d, added, it, 0);
    FreshIn(g, v, t, d, it);
    FsckAdd(g, v, v', t, d, added, it, 0, []);
  }

  lemma NoRootZero(g: Geometry, v: Vol, t: Tree)
    requires Fsck(g, v, t)
    ensures 0 !in t.chains
  {
    hide DirOk, OwnerOk, HeadsOk, MembersOk, CoverOk;
  }

  lemma FreshIn(g: Geometry, v: Vol, t: Tree, d: nat, it: Item)
    requires VolOk(g, v) && d in t.chains && IsChain(v.fat, t.chains[d])
             && Row(|t.chains[d]|, SlotsPerCluster(g)) <= it.slot
    ensures FreshSlot(Shown(g, v, t.chains[d]), it)
  {
    hide Slots, Listing, IsPath, FreshSlot;
    ChainInRange(v.fat, t.chains[d]);
    NewSlotFresh(Slots(g, v, t.chains[d]), it);
  }

  lemma GrownShown(g: Geometry, v: Vol, v': Vol, t: Tree, d: nat, added: seq<nat>, it: Item, c: nat)
    requires d in t.chains && d in t.depth && d != c && EntryGrown(g, v, v', t, d, added, it, c)
    ensures var t' := TreeAfterAdd(t, d, added, it.slot, c);
            d in t'.chains && d in t'.depth && t'.chains[d] == t.chains[d] + added
            && Shown(g, v', t'.chains[d]) == Shown(g, v, t.chains[d]) + [it]
  {
  }

  /** The appended directory, seen from before the new directory's cluster `c` was claimed. */
  lemma DirAppended(g: Geometry, v: Vol, v2: Vol, v3: Vol, t: Tree, d: nat, added: seq<nat>, it: Item, c: nat,
                    content: seq<Byte>)
    requires Fsck(g, v, t) && d in t.depth && d in t.chains && IsChain(v.fat, t.chains[d]) && VolOk(g, v)
    requires 2 <= c < |v.fat| && v.fat[c] == 0 && VolOk(g, v2)
    requires v2 == Vol(v.fat[c := EOC], v.data[c := content]) && IsChain(v2.fat, t.chains[d])
    requires DirGrown(g, v2, v3, t.chains[d], added, it)
    ensures EntryGrown(g, v, v3, t, d, added, it, c) && v3.data[c] == content && d != c && c !in t.chains
  {
    hide Shown, IsPath, TreeOk, HeadsOk, DataKept;
    FreeIsNoHead(v.fat, t, c);
    FreeNotInChain(v.fat, t, d, c);
    AddedNotClaimed(v2, added, c);
    ShownFrame(g, v, v2, t.chains[d]);
    AppendKeepsData(g, v, v3, t, d, added, c);
    assert c !in t.chains[d] + added;
    OneClusterChain(v3.fat[c := EOC], c);
    assert v3.fat[c := EOC] == v3.fat;
  }

  lemma FreeNotInChain(fat: seq<nat>, t: Tree, d: nat, c: nat)
    requires ChainsOk(fat, t) && d in t.chains && 2 <= c < |fat| && fat[c] == 0
    ensures c !in t.chains[d] && InRange(fat, t.chains[d])
    ensures forall i | 0 <= i < |t.chains[d]| :: t.chains[d][i] != c
  {
  }

  lemma AddedNotClaimed(v2: Vol, added: seq<nat>, c: nat)
    requires c < |v2.fat| && v2.fat[c] == EOC
    requires forall i | 0 <= i < |added| :: 2 <= added[i] < |v2.fat| && v2.fat[added[i]] == 0
    ensures c !in added && forall i | 0 <= i < |added| :: added[i] != c
  {
  }

  /** A new directory was appended. */
  lemma DirCreated(g: Geometry, v: Vol, v2: Vol, v3: Vol, t: Tree, d: nat, added: seq<nat>, it: Item, c: nat)
    requires Fsck(g, v, t) && d in t.depth && d in t.chains && IsChain(v.fat, t.chains[d]) && VolOk(g, v)
    requires 2 <= c < |v.fat| && v.fat[c] == 0 && VolOk(g, v2) && d < |v.fat|
    requires v2 == Vol(v.fat[c := EOC], v.data[c := DirCluster(g.ClusterBytes(), c, d)]) && IsChain(v2.fat, t.chains[d])
    requires DirGrown(g, v2, v3, t.chains[d], added, it) && Row(|t.chains[d]|, SlotsPerCluster(g)) <= it.slot
    requires it.first == c && it.isDir && !IsDot(it.name)
    ensures var t' := TreeAfterAdd(t, d, added, it.slot, c);
            Fsck(g, v3, t') && d in t'.chains && d in t'.depth && AddedEntry(g, v, t, v3, t', d, it)
            && c in t'.depth && c in t'.chains && DotItems(Shown(g, v3, t'.chains[c]), c, d)
  {
    hide Shown, Slots, IsPath, Fsck, DirGrown, FilesKept, DirsKept, DirCluster, OnlyDots, SlotsDistinct, DotItems,
      DataKept, AllTo;
    DirAppended(g, v, v2, v3, t, d, added, it, c, DirCluster(g.ClusterBytes(), c, d));
    DirClusterListing(g, v3, c, d);
    DotsOnly(Shown(g, v3, [c]), c, d);
    GrownShown(g, v, v3, t, d, added, it, c);
    FreshIn(g, v, t, d, it);
    FsckAdd(g, v, v3, t, d, added, it, c, Shown(g, v3, [c]));
  }

  // ------------------------------------------------------------- failures

  /** A failed append harmed nothing. */
  lemma FailedAppend(g: Geometry, v: Vol, v': Vol, t: Tree, d: nat)
    requires Fsck(g, v, t) && d in t.depth && d in t.chains && IsChain(v.fat, t.chains[d]) && VolOk(g, v)
    requires DirKept(g, v, v', t.chains[d])
    ensures Fsck(g, v', t) && Unharmed(g, v, t, v')
  {
    hide Shown, NextOf, TreeOk, HeadsOk, FilesKept, DirsKept;
    KeptData(g, v, v', t, d);
    FsckSame(g, v, v', t, d);
  }

  lemma KeptData(g: Geometry, v: Vol, v': Vol, t: Tree, d: nat)
    requires VolOk(g, v) && VolOk(g, v') && MembersOk(t) && CoverOk(v.fat, t) && d in t.chains
    requires forall c | 0 <= c < |v.fat| && c !in t.chains[d] && v.fat[c] != 0 :: v'.data[c] == v.data[c]
    ensures DataKept(v, v', t, {d})
  {
  }

  /** A directory creation that failed after claiming cluster `c` and gave it back harmed nothing. */
  lemma FailedCreate(g: Geometry, v: Vol, v2: Vol, v3: Vol, v4: Vol, t: Tree, d: nat, c: nat, content: seq<Byte>)
    requires Fsck(g, v, t) && d in t.depth && d in t.chains && IsChain(v.fat, t.chains[d]) && VolOk(g, v)
    requires 2 <= c < |v.fat| && v.fat[c] == 0 && VolOk(g, v2)
    requires v2 == Vol(v.fat[c := EOC], v.data[c := content]) && IsChain(v2.fat, t.chains[d])
    requires DirKept(g, v2, v3, t.chains[d])
    requires VolOk(g, v4) && v4.data == v3.data
    requires forall x | 0 <= x < g.count + 2 :: v4.fat[x] == if x in [c] then 0 else v3.fat[x]
    ensures Fsck(g, v4, t) && Unharmed(g, v, t, v4)
  {
    hide Shown, NextOf, TreeOk, HeadsOk, FilesKept, DirsKept, MembersOk, CoverOk;
    FreeNotInChain(v.fat, t, d, c);
    ShownFrame(g, v, v2, t.chains[d]);
    ShownFrame(g, v3, v4, t.chains[d]);
    assert v4.fat == v.fat;
    KeptData(g, v, v4, t, d);
    FsckSame(g, v, v4, t, d);
  }

  // ---------------------------------------------------------------- results

  /** Slots for the records of `name` and its short record. */
  function SlotsFor(name: seq<nat>): nat
  {
    if |name| <= 255 then RecordCount(|name|) + 1 else 0
  }

  /** Clusters by which a directory grows for an entry called `name` and the end marker. */
  ghost function DirGrowth(g: Geometry, name: seq<nat>): nat
    requires g.Valid()
  {
    CeilRows((SlotsFor(name) + 1) * SLOT_SIZE, g.ClusterBytes())
  }

  ghost function CreateFileError(g: Geometry, v: Vol, items: seq<Item>, name: seq<nat>): Option<FatError>
    requires g.Valid()
  {
    var p := FindItem(items, name, 0);
    if !NameOk(name) then Some(InvalidName)
    else if p < |items| then (if items[p].isDir then Some(IsDirectory) else None)
    else if !Acceptable(name) then Some(InvalidName)
    else if |FreeSet(v.fat)| < DirGrowth(g, name) then Some(NoSpace)
    else None
  }

  /** What a new file called `name` lists as in the directory with chain `s`. */
  ghost function NewFileItem(g: Geometry, s: seq<nat>, name: seq<nat>, short: seq<Byte>): Item
    requires |short| == 11
  {
    NewEntry(Row(|s|, SlotsPerCluster(g)) + (if SlotsFor(name) > 0 then SlotsFor(name) - 1 else 0),
             ListedName(name, short), false, 0)
  }

  ghost function NewDirItem(g: Geometry, s: seq<nat>, name: seq<nat>, short: seq<Byte>, c: nat): Item
    requires |short| == 11
  {
    NewFileItem(g, s, name, short).(isDir := true, first := c)
  }

  lemma MatchIffFound(items: seq<Item>, name: seq<nat>, p: nat)
    requires p == FindItem(items, name, 0)
    ensures NoMatch(items, name) <==> p == |items|
  {
  }

  lemma TreeHead(g: Geometry, v: Vol, t: Tree, d: nat)
    requires Fsck(g, v, t) && d in t.chains
    ensures IsChain(v.fat, t.chains[d]) && t.chains[d][0] == d && 2 <= d < |v.fat|
  {
    hide TreeOk, MembersOk, CoverOk;
  }

  lemma FileSlots(recs: seq<Slot>, name: seq<nat>, short: seq<Byte>, entry: Slot)
    requires Acceptable(name) && AreRecords(recs, name, short) && ShortOk(short)
    requires entry == BareEntry(short, ATTR_ARCHIVE)
    ensures EntrySlots(recs + [entry], name, short) && |recs + [entry]| == SlotsFor(name)
  {
  }

  lemma FileItem(g: Geometry, s: seq<nat>, recs: seq<Slot>, name: seq<nat>, short: seq<Byte>, entry: Slot)
    requires |recs + [entry]| == SlotsFor(name) && |short| == 11 && entry == BareEntry(short, ATTR_ARCHIVE)
    ensures EntryItem(Row(|s|, SlotsPerCluster(g)), recs + [entry], name) == NewFileItem(g, s, name, short)
    ensures Row(|s|, SlotsPerCluster(g)) <= NewFileItem(g, s, name, short).slot
  {
    hide ListedName;
    ListedAlias(name, entry);
  }

  lemma DirSlotsOk(recs: seq<Slot>, name: seq<nat>, short: seq<Byte>, c: nat)
    requires Acceptable(name) && AreRecords(recs, name, short) && ShortOk(short) && c < 0x1_0000_0000
    ensures EntrySlots(recs + [DirEntry(short, c)], name, short) && |recs + [DirEntry(short, c)]| == SlotsFor(name)
  {
  }

  lemma DirItem(g: Geometry, s: seq<nat>, recs: seq<Slot>, name: seq<nat>, short: seq<Byte>, c: nat)
    requires |short| == 11 && c < 0x1_0000_0000 && |recs + [DirEntry(short, c)]| == SlotsFor(name)
    ensures EntryItem(Row(|s|, SlotsPerCluster(g)), recs + [DirEntry(short, c)], name)
            == NewDirItem(g, s, name, short, c)
    ensures Row(|s|, SlotsPerCluster(g)) <= NewDirItem(g, s, name, short, c).slot
  {
    hide DirEntry, ListedName;
    ListedAlias(name, DirEntry(short, c));
  }

  ghost function CreateDirError(g: Geometry, v: Vol, items: seq<Item>, name: seq<nat>): Option<FatError>
    requires g.Valid()
  {
    if !NameOk(name) then Some(InvalidName)
    else if FindItem(items, name, 0) < |items| then Some(AlreadyExists)
    else if |FreeSet(v.fat)| == 0 then Some(NoSpace)
    else if !Acceptable(name) then Some(InvalidName)
    else if |FreeSet(v.fat)| < 1 + DirGrowth(g, name) then Some(NoSpace)
    else None
  }

  /** Behind slot `base` the directory `s` holds the records of `name`, then a short record with the alias
      `short`, the attributes `attr`, size zero and first cluster `c`. */
  ghost predicate Spelt(g: Geometry, v: Vol, s: seq<nat>, base: nat, name: seq<nat>, short: seq<Byte>, attr: Byte,
                        c: nat)
  {
    exists recs: seq<Slot>, e: Slot ::
      && AreRecords(recs, name, short) && Recorded(g, v, s, base, recs + [e])
      && |short| == 11 && c < 0x1_0000_0000 && e[..11] == short && e[11] == attr
      && e[12..20] == Zeros(8) && e[20..22] == Le16(c / 0x1_0000) && e[22..26] == Zeros(4)
      && e[26..28] == Le16(c % 0x1_0000) && e[28..] == Zeros(4)
  }

  lemma FileSpelt(g: Geometry, v: Vol, s: seq<nat>, base: nat, recs: seq<Slot>, name: seq<nat>, short: seq<Byte>)
    requires |short| == 11 && AreRecords(recs, name, short) && Recorded(g, v, s, base, recs + [BareEntry(short, 0x20)])
    ensures Spelt(g, v, s, base, name, short, 0x20, 0)
  {
    hide AreRecords, Recorded;
    var e := BareEntry(short, 0x20);
    assert e[20..22] == Le16(0) && e[26..28] == Le16(0);
  }

  lemma DirSpelt(g: Geometry, v: Vol, s: seq<nat>, base: nat, recs: seq<Slot>, name: seq<nat>, short: seq<Byte>, c: nat)
    requires |short| == 11 && c < 0x1_0000_0000 && AreRecords(recs, name, short)
    requires Recorded(g, v, s, base, recs + [DirEntry(short, c)])
    ensures Spelt(g, v, s, base, name, short, 0x10, c)
  {
    hide AreRecords, Recorded;
    var e := DirEntry(short, c);
    DirEntryBytes(short, c);
  }

  lemma DirEntryBytes(short: seq<Byte>, c: nat)
    requires |short| == 11 && c < 0x1_0000_0000
    ensures var e := DirEntry(short, c);
            && e[12..20] == Zeros(8) && e[20..22] == Le16(c / 0x1_0000) && e[22..26] == Zeros(4)
            && e[26..28] == Le16(c % 0x1_0000) && e[28..] == Zeros(4)
  {
    assert Le32(0) == Zeros(4);
  }

  lemma ChainAfterAdd(t: Tree, d: nat, added: seq<nat>, slot: nat, c: nat)
    requires d in t.chains && d in t.depth && d != c
    ensures var t' := TreeAfterAdd(t, d, added, slot, c); d in t'.chains && t'.chains[d] == t.chains[d] + added
  {
  }

  /** Directory `d` lists one more directory, `c`, which lists exactly its two dot entries, leading to `c`
      and to `d`; nothing else changed. */
  ghost predicate CreatedDir(g: Geometry, v: Vol, t: Tree, v': Vol, t': Tree, d: nat, name: seq<nat>,
                             short: seq<Byte>, c: nat)
    requires d in t.chains && d in t'.chains && |short| == 11
  {
    && AddedEntry(g, v, t, v', t', d, NewDirItem(g, t.chains[d], name, short, c))
    && c !in t.chains && c in t'.depth && c in t'.chains && DotItems(Shown(g, v', t'.chains[c]), c, d)
    && Spelt(g, v', t'.chains[d], Row(|t.chains[d]|, SlotsPerCluster(g)), name, short, 0x10, c)
  }

  lemma DirIsCreated(g: Geometry, v: Vol, t: Tree, v': Vol, t': Tree, d: nat, name: seq<nat>, short: seq<Byte>, c: nat)
    requires d in t.chains && d in t'.chains && |short| == 11
             && AddedEntry(g, v, t, v', t', d, NewDirItem(g, t.chains[d], name, short, c))
    requires c !in t.chains && c in t'.depth && c in t'.chains && DotItems(Shown(g, v', t'.chains[c]), c, d)
    requires Spelt(g, v', t'.chains[d], Row(|t.chains[d]|, SlotsPerCluster(g)), name, short, 0x10, c)
    ensures CreatedDir(g, v, t, v', t', d, name, short, c)
  {
  }

  /** The free set is empty exactly when no cluster is free. */
  lemma SomethingFree(fat: seq<nat>)
    ensures |FreeSet(fat)| == 0 <==> forall c | 2 <= c < |fat| :: fat[c] != 0
  {
    if |FreeSet(fat)| == 0 {
      forall c | 2 <= c < |fat| ensures fat[c] != 0 {
        assert c !in FreeSet(fat);
      }
    } else {
      var c :| c in FreeSet(fat);
    }
  }

  lemma FreeAfterClaim(fat: seq<nat>, c: nat)
    requires 2 <= c < |fat| && fat[c] == 0
    ensures |FreeSet(fat)| == 1 + |FreeSet(fat[c := EOC])|
  {
    assert FreeSet(fat) == FreeSet(fat[c := EOC]) + {c};
  }

  lemma ClaimedClusterApart(g: Geometry, v: Vol, v2: Vol, t: Tree, d: nat, c: nat)
    requires Fsck(g, v, t) && d in t.chains && 2 <= c < |v.fat| && v.fat[c] == 0 && |v2.fat| == |v.fat|
             && v2.fat == v.fat[c := EOC]
    ensures IsChain(v2.fat, t.chains[d]) && c !in t.chains
  {
    hide TreeOk, IsPath;
    FreeIsNoHead(v.fat, t, c);
    FreeNotInChain(v.fat, t, d, c);
    ChainFrame(v.fat, v2.fat, t.chains[d]);
  }

  lemma DirKeptSelf(g: Geometry, v: Vol, s: seq<nat>)
    requires VolOk(g, v) && IsChain(v.fat, s)
    ensures DirKept(g, v, v, s)
  {
  }

  // ---------------------------------------------------------- path resolution

  /** The directories that cannot be listed. */
  ghost function LongDirs(g: Geometry, v: Vol, t: Tree): set<nat>
  {
    set d | d in t.depth && d in t.chains && Overlong(g, v, t.chains[d])
  }

  /** The directory that `path` leads to from `cur`, by the listings without dot entries; no `cur`
      means a file, and `long` are the directories that cannot be listed. */
  ghost function Resolved(ls: Listings, long: set<nat>, cur: Option<nat>, path: seq<seq<nat>>): Result<nat, FatError>
    decreases |path|
  {
    if path == [] then (if cur.Some? then Ok(cur.value) else Err(NotDirectory))
    else if path[0] == [] || path[0] == [0x2e] then Resolved(ls, long, cur, path[1..])
    else if path[0] == [0x2e, 0x2e] then Err(NotFound)
    else if cur.None? || cur.value !in ls then Err(NotDirectory)
    else if cur.value in long then Err(Corrupt)
    else
      var items := NonDot(ls[cur.value]);
      var p := FindItem(items, path[0], 0);
      if p == |items| then Err(NotFound)
      else Resolved(ls, long, if items[p].isDir then Some(items[p].first) else None, path[1..])
  }

  lemma {:induction false} NonDotFrom(items: seq<Item>, p: nat) returns (q: nat)
    requires p < |NonDot(items)|
    ensures q < |items| && items[q] == NonDot(items)[p] && !IsDot(items[q].name)
  {
    var init := items[..|items| - 1];
    if p < |NonDot(init)| {
      q := NonDotFrom(init, p);
    } else {
      q := |items| - 1;
    }
  }

  /** A listed directory is a directory of the tree. */
  lemma ListedDir(g: Geometry, v: Vol, t: Tree, d: nat, p: nat)
    requires Fsck(g, v, t) && d in t.depth && d in t.chains && p < |NonDot(Shown(g, v, t.chains[d]))|
    ensures var it := NonDot(Shown(g, v, t.chains[d]))[p];
            it.isDir ==> it.first in t.depth && it.first in t.chains
  {
    hide Shown, Fsck, NonDot;
    var q := NonDotFrom(Shown(g, v, t.chains[d]), p);
    TruncateHead(g, v, t, d, Shown(g, v, t.chains[d]), q);
  }

  lemma RootDirectory(g: Geometry, v: Vol, t: Tree)
    requires Fsck(g, v, t)
    ensures g.root in t.depth && g.root in t.chains
  {
    hide DirOk, OwnerOk, ChainsOk;
  }

  lemma ListingOfDir(g: Geometry, v: Vol, t: Tree, d: nat)
    requires d in t.depth && d in t.chains
    ensures d in AllListings(g, v, t) && AllListings(g, v, t)[d] == Shown(g, v, t.chains[d])
    ensures d in LongDirs(g, v, t) <==> Overlong(g, v, t.chains[d])
  {
  }
}
