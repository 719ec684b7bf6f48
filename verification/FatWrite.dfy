/** Lemmas that carry one file write, truncation or removal from the found entry to the checked volume. */
module FatWrite {
  import opened Bytes
  import opened Wrappers
  import opened Rows
  import opened FatChains
  import opened FatLayout
  import opened FatContent
  import opened FatDirectory
  import opened FatTree
  import opened FatVolume
  import opened FatFsck
  import opened FatSteps

  /** Position `p` of the listing of `d` is an entry stored at `loc`. */
  ghost predicate Found(g: Geometry, v: Vol, t: Tree, d: nat, p: nat, loc: Location)
  {
    && VolOk(g, v) && d in t.depth && d in t.chains && IsChain(v.fat, t.chains[d]) && t.chains[d][0] == d
    && FoundIn(g, v, t.chains[d], p, loc)
  }

  ghost predicate FoundIn(g: Geometry, v: Vol, s: seq<nat>, p: nat, loc: Location)
    requires VolOk(g, v) && InRange(v.fat, s)
  {
    var items, slots := Shown(g, v, s), Slots(g, v, s);
    && p < |items| && !IsDot(items[p].name) && items[p].slot < |slots| && loc == Place(g, s, items[p])
    && Lists(slots, items[p].slot) && items[p] == ItemAt(slots, items[p].slot) && p == |Run(slots, items[p].slot).out|
  }

  /** Names that the path splitter lets through. */
  predicate NameOk(name: seq<nat>)
  {
    && name != [] && !IsDot(name) && name[|name| - 1] != 0x2e && name[|name| - 1] != 0x20
    && forall i | 0 <= i < |name| :: name[i] !in {0x5c, 0x3a, 0x2a, 0x3f, 0x22, 0x3c, 0x3e, 0x7c}
  }

  lemma SameNameNotDot(a: seq<nat>, b: seq<nat>)
    requires SameName(a, b)
    ensures IsDot(a) ==> IsDot(b)
  {
  }

  /** What the search returns is an entry of the tree. */
  lemma FoundEntry(g: Geometry, v: Vol, t: Tree, d: nat, name: seq<nat>, loc: Location)
    requires VolOk(g, v) && d in t.depth && d in t.chains && IsChain(v.fat, t.chains[d]) && t.chains[d][0] == d
    requires !IsDot(name) && FoundAt(g, v, t.chains[d], name, loc)
    ensures var items := Shown(g, v, t.chains[d]);
            FindItem(items, name, 0) < |items| && Found(g, v, t, d, FindItem(items, name, 0), loc)
  {
    hide Slots, NextOf, Place, SameName, Step, Lists, ItemAt;
    var items, slots := Shown(g, v, t.chains[d]), Slots(g, v, t.chains[d]);
    var p := FindItem(items, name, 0);
    SameNameNotDot(items[p].name, name);
    ListingItems(slots, |slots|, p);
  }

  lemma NotFoundEntry(items: seq<Item>, name: seq<nat>)
    requires NoMatch(items, name)
    ensures FindItem(items, name, 0) == |items|
  {
  }

  // ------------------------------------------------------------------ a file

  /** The volume passes the check and position `p` of directory `d` is a file entry stored at `loc`. */
  ghost predicate FileEntry(g: Geometry, v: Vol, t: Tree, d: nat, p: nat, loc: Location)
  {
    Fsck(g, v, t) && Found(g, v, t, d, p, loc) && !loc.isDir
  }

  /** What the check says about the chain of a file entry. */
  lemma FileChain(g: Geometry, v: Vol, t: Tree, d: nat, p: nat, loc: Location)
    requires FileEntry(g, v, t, d, p, loc)
    ensures var it := Shown(g, v, t.chains[d])[p]; it.first == loc.first && it.size == loc.size && !it.isDir
    ensures 0 !in t.chains && loc.first !in t.depth && loc.first != d && loc.size < 0x1_0000_0000
    ensures loc.first == 0 ==> loc.size == 0 && ChainOr(t, loc.first) == []
    ensures loc.first != 0 ==>
              loc.first in t.chains && IsChain(v.fat, ChainOr(t, loc.first))
              && ChainOr(t, loc.first)[0] == loc.first
    ensures loc.size <= Row(|ChainOr(t, loc.first)|, g.ClusterBytes())
  {
    hide Shown, Slots, DirOk, OwnerOk, IsPath, Run, Lists;
    var ls := AllListings(g, v, t);
    GetItem(g.root, g.ClusterBytes(), t, ls, d, p);
  }

  lemma CollectedFile(g: Geometry, v: Vol, t: Tree, first: nat, chain: seq<nat>)
    requires first == 0 ==> chain == [] && ChainOr(t, first) == []
    requires first != 0 ==>
               IsChain(v.fat, chain) && chain[0] == first && IsChain(v.fat, ChainOr(t, first))
               && ChainOr(t, first)[0] == first
    ensures chain == ChainOr(t, first)
  {
    if first != 0 {
      ChainUnique(v.fat, chain, ChainOr(t, first));
    }
  }

  lemma UsedDataKept(v: Vol, v': Vol, t: Tree)
    requires ChainsOk(v.fat, t) && |v.data| == |v'.data| == |v.fat|
    requires forall c | 0 <= c < |v.fat| && v.fat[c] != 0 :: v'.data[c] == v.data[c]
    ensures DataKept(v, v', t, {})
  {
  }

  /** A failed growth harmed nothing. */
  lemma FailedGrowth(g: Geometry, v: Vol, v': Vol, t: Tree, d: nat)
    requires Fsck(g, v, t) && VolOk(g, v') && d in t.depth && SameChains(v.fat, v'.fat)
    requires forall c | 0 <= c < g.count + 2 && v.fat[c] != 0 :: v'.data[c] == v.data[c]
    ensures Fsck(g, v', t) && Unharmed(g, v, t, v')
  {
    hide Shown, Stored, TreeOk, HeadsOk, MembersOk, CoverOk, SameChains, FilesKept, DirsKept;
    UsedDataKept(v, v', t);
    ChainKept(g, v, v', t, {}, d);
    DataKeptMoreHeads(v, v', t, {}, {d});
    FsckSame(g, v, v', t, d);
  }

  lemma DataKeptMoreHeads(v: Vol, v': Vol, t: Tree, a: set<nat>, b: set<nat>)
    requires DataKept(v, v', t, a) && a <= b
    ensures DataKept(v, v', t, b)
  {
  }

  lemma UnharmedSelf(g: Geometry, v: Vol, t: Tree)
    requires Fsck(g, v, t)
    ensures Unharmed(g, v, t, v)
  {
    hide Shown, Stored, TreeOk, HeadsOk, MembersOk, CoverOk, VolOk;
  }

  /** After the growth: the file has a head, its chain is `chain + added` and shares no cluster with
      the directory. */
  lemma GrownFile(g: Geometry, v: Vol, v1: Vol, t: Tree, d: nat, p: nat, loc: Location, chain: seq<nat>,
                  added: seq<nat>)
    requires FileEntry(g, v, t, d, p, loc) && chain == ChainOr(t, loc.first) && Grown(g, v, v1, chain, added)
             && |chain| + |added| > 0
    ensures IsChain(v1.fat, chain + added) && NoDup(chain + added)
    ensures FileAt(t, Shown(g, v, t.chains[d]), p, (chain + added)[0])
    ensures ChainOr(t, (chain + added)[0]) == chain
    ensures forall i | 0 <= i < |chain + added| :: (chain + added)[i] !in t.chains[d]
  {
    hide Shown, Slots, TreeOk, IsPath, FoundIn;
    FileChain(g, v, t, d, p, loc);
    FoundNotDot(g, v, t, d, p, loc);
    ChainNoDup(v1.fat, chain + added);
    if chain == [] {
      assert (chain + added)[0] == added[0];
      FreeIsNoHead(v.fat, t, added[0]);
    }
    forall i | 0 <= i < |chain + added| ensures (chain + added)[i] !in t.chains[d] {
      GrownApart(g, v, t, d, loc.first, chain, added, i);
    }
  }

  lemma FoundNotDot(g: Geometry, v: Vol, t: Tree, d: nat, p: nat, loc: Location)
    requires Found(g, v, t, d, p, loc)
    ensures p < |Shown(g, v, t.chains[d])| && !IsDot(Shown(g, v, t.chains[d])[p].name)
  {
  }

  lemma GrownApart(g: Geometry, v: Vol, t: Tree, d: nat, h: nat, chain: seq<nat>, added: seq<nat>, i: nat)
    requires ChainsOk(v.fat, t) && d in t.chains && h != d && chain == ChainOr(t, h) && i < |chain + added|
    requires forall k | 0 <= k < |added| :: 2 <= added[k] < |v.fat| && v.fat[added[k]] == 0
    ensures (chain + added)[i] !in t.chains[d]
  {
  }

  /** Writing to the file's clusters leaves the directory's slots as they were. */
  lemma WriteKeepsDirectory(g: Geometry, v: Vol, v1: Vol, v3: Vol, t: Tree, d: nat, p: nat, loc: Location,
                            chain: seq<nat>, added: seq<nat>)
    requires FileEntry(g, v, t, d, p, loc) && chain == ChainOr(t, loc.first) && Grown(g, v, v1, chain, added)
             && |chain| + |added| > 0
    requires VolOk(g, v3) && v3.fat == v1.fat
    requires forall c | 0 <= c < g.count + 2 && c !in chain + added :: v3.data[c] == v1.data[c]
    ensures IsChain(v3.fat, t.chains[d]) && Slots(g, v3, t.chains[d]) == Slots(g, v, t.chains[d])
    ensures forall c | 2 <= c < |v.fat| && c !in chain + added :: v3.fat[c] == v.fat[c] && v3.data[c] == v.data[c]
  {
    hide Shown, Slots, Fsck, FoundIn, Grown, NextOf;
    GrownFile(g, v, v1, t, d, p, loc, chain, added);
    forall c | 2 <= c < |v.fat| && c !in chain + added ensures v3.fat[c] == v.fat[c] && v3.data[c] == v.data[c] {
      GrownElsewhere(g, v, v1, chain, added, c);
    }
    var s := t.chains[d];
    forall i | 0 <= i < |s| ensures s[i] !in chain + added {
      assert s[i] in s;
    }
    ChainFrame(v.fat, v3.fat, s);
    ContentFrame(g, v, v3, s);
  }

  /** Where the metadata of a found entry is written. */
  lemma FoundPlace(g: Geometry, v: Vol, t: Tree, d: nat, p: nat, loc: Location)
    requires Found(g, v, t, d, p, loc)
    ensures var s, n := t.chains[d], Shown(g, v, t.chains[d])[p].slot;
            && n < Row(|s|, SlotsPerCluster(g)) && RowOf(n, SlotsPerCluster(g)) < |s|
            && loc.cluster == s[RowOf(n, SlotsPerCluster(g))]
            && loc.offset == ColumnOf(n, SlotsPerCluster(g)) * SLOT_SIZE
            && loc.cluster in s
  {
    hide Lists, ItemAt, Run, Shown;
    PlaceBound(g, |t.chains[d]|, Shown(g, v, t.chains[d])[p].slot);
  }

  /** Rewriting the metadata rewrites the listed item. */
  lemma MetadataShown(g: Geometry, v: Vol, v4: Vol, t: Tree, d: nat, p: nat, loc: Location, first: nat, size: nat)
    requires Found(g, v, t, d, p, loc) && VolOk(g, v4) && first < 0x1_0000_0000 && size < 0x1_0000_0000
    requires var n := Shown(g, v, t.chains[d])[p].slot;
             n < |SlotsIn(g, v, t.chains[d])| &&
             SlotsIn(g, v4, t.chains[d]) == SlotsIn(g, v, t.chains[d])[n :=
               WithMetadata(SlotsIn(g, v, t.chains[d])[n], first, size)]
    ensures var items := Shown(g, v, t.chains[d]);
            Shown(g, v4, t.chains[d]) == items[p := NewItem(items[p], first, size)]
  {
    hide Slots, WithMetadata, Step, Lists;
    var slots, n := SlotsIn(g, v, t.chains[d]), Shown(g, v, t.chains[d])[p].slot;
    MetadataRun(slots, n, first, size, |slots|);
  }

  /** The chain bytes of the file after the growth: the old ones and zeros. */
  lemma GrownBytes(g: Geometry, v: Vol, v1: Vol, chain: seq<nat>, added: seq<nat>)
    requires Grown(g, v, v1, chain, added) && |chain| + |added| > 0 && (chain == [] || IsChain(v.fat, chain))
    ensures InRange(v.fat, chain) && InRange(v1.fat, chain + added)
    ensures Content(g, v1, chain + added) == Content(g, v, chain) + Zeros(Row(|added|, g.ClusterBytes()))
  {
    hide Flatten, NextOf;
    forall i | 0 <= i < |chain| ensures v1.data[chain[i]] == v.data[chain[i]] {
      ChainInUse(v.fat, chain, i);
    }
    FlattenFrame(v.data, v1.data, chain, g.ClusterBytes());
    FlattenAppend(v1.data, chain, added, g.ClusterBytes());
    FlattenZeros(v1.data, added, g.ClusterBytes());
  }

  /** Everything outside the file and its directory kept its contents. */
  lemma WriteKeepsOthers(g: Geometry, v: Vol, v3: Vol, v4: Vol, t: Tree, d: nat, h: nat, chain: seq<nat>,
                         added: seq<nat>, place: nat)
    requires VolOk(g, v) && VolOk(g, v3) && VolOk(g, v4) && ChainsOk(v.fat, t) && d in t.chains
             && chain == ChainOr(t, h)
    requires forall i | 0 <= i < |added| :: 2 <= added[i] < |v.fat| && v.fat[added[i]] == 0
    requires forall c | 2 <= c < |v.fat| && c !in chain + added :: v3.data[c] == v.data[c]
    requires forall c | 0 <= c < g.count + 2 && c != place :: v4.data[c] == v3.data[c]
    requires place in t.chains[d]
    ensures DataKept(v, v4, t, {d, h})
  {
    hide HeadsOk;
    forall c | c in t.at && t.at[c] !in {d, h} && c < |v.data| ensures v4.data[c] == v.data[c] {
      assert InUse(v.fat[c]);
      forall i | 0 <= i < |chain + added| ensures (chain + added)[i] != c {
        if i < |chain| {
          assert t.chains[h][i] in t.at;
        }
      }
      assert c !in chain + added;
      assert place in t.at && t.at[place] == d by {
        var i :| 0 <= i < |t.chains[d]| && t.chains[d][i] == place;
      }
    }
  }

  /** The clusters `grown` hold the file of entry `p`: its old chain and free clusters behind it. */
  ghost predicate FileGrown(g: Geometry, v: Vol, v3: Vol, t: Tree, d: nat, p: nat, loc: Location, chain: seq<nat>,
                            added: seq<nat>)
    requires d in t.chains
  {
    && chain == ChainOr(t, loc.first) && |chain + added| > 0
    && VolOk(g, v3) && |v.fat| == |v3.fat| && |v.data| == |v3.data| && IsChain(v3.fat, chain + added)
    && ChainOr(t, (chain + added)[0]) == chain && FileAt(t, Shown(g, v, t.chains[d]), p, (chain + added)[0])
    && (forall i | 0 <= i < |added| :: 2 <= added[i] < |v.fat| && v.fat[added[i]] == 0)
    && (forall i | 0 <= i < |chain + added| :: (chain + added)[i] !in t.chains[d])
    && (forall c | 2 <= c < |v.fat| && c < |v.data| && c !in chain + added ::
       v3.fat[c] == v.fat[c] && v3.data[c] == v.data[c])
  }

  /** The state right before the metadata write, put together. */
  ghost predicate DataWritten(g: Geometry, v: Vol, v3: Vol, t: Tree, d: nat, p: nat, loc: Location, chain: seq<nat>,
                              added: seq<nat>,
                              offset: nat, data: seq<Byte>)
  {
    var grown, needed := chain + added, Max(loc.size, offset + |data|);
    && FileEntry(g, v, t, d, p, loc) && d in t.chains
    && FileGrown(g, v, v3, t, d, p, loc, chain, added)
    && IsChain(v3.fat, t.chains[d]) && SlotsIn(g, v3, t.chains[d]) == SlotsIn(g, v, t.chains[d])
    && needed <= Row(|grown|, g.ClusterBytes())
    && Prefix(Stored(g, v3, grown), needed) == Overwritten(Prefix(Stored(g, v, chain), loc.size), offset, data)
  }

  lemma WriteKeepsFile(g: Geometry, v: Vol, v1: Vol, v3: Vol, t: Tree, d: nat, p: nat, loc: Location, chain: seq<nat>,
                       added: seq<nat>)
    requires FileEntry(g, v, t, d, p, loc) && chain == ChainOr(t, loc.first) && Grown(g, v, v1, chain, added)
             && |chain + added| > 0
    requires VolOk(g, v3) && v3.fat == v1.fat
    requires forall c | 0 <= c < g.count + 2 && c !in chain + added :: v3.data[c] == v1.data[c]
    ensures d in t.chains && FileGrown(g, v, v3, t, d, p, loc, chain, added)
  {
    hide Shown, Slots, FileEntry, Grown, IsChain, VolOk, FileAt, ChainOr;
    FileOk(g, v, t, d, p, loc);
    SameLengths(g, v, v3);
    GrownFile(g, v, v1, t, d, p, loc, chain, added);
    GrownAdded(g, v, v1, chain, added);
    WrittenElsewhere(g, v, v1, v3, chain, added);
  }

  lemma WrittenElsewhere(g: Geometry, v: Vol, v1: Vol, v3: Vol, chain: seq<nat>, added: seq<nat>)
    requires Grown(g, v, v1, chain, added) && VolOk(g, v) && VolOk(g, v3) && v3.fat == v1.fat
    requires forall c | 0 <= c < g.count + 2 && c !in chain + added :: v3.data[c] == v1.data[c]
    ensures |v.fat| == |v3.fat| == |v.data| == |v3.data|
    ensures forall c | 2 <= c < |v.fat| && c < |v.data| && c !in chain + added ::
            v3.fat[c] == v.fat[c] && v3.data[c] == v.data[c]
  {
  }

  lemma WriteKeepsSlots(g: Geometry, v: Vol, v1: Vol, v3: Vol, t: Tree, d: nat, p: nat, loc: Location, chain: seq<nat>,
                        added: seq<nat>)
    requires FileEntry(g, v, t, d, p, loc) && chain == ChainOr(t, loc.first) && Grown(g, v, v1, chain, added)
             && |chain + added| > 0
    requires VolOk(g, v3) && v3.fat == v1.fat
    requires forall c | 0 <= c < g.count + 2 && c !in chain + added :: v3.data[c] == v1.data[c]
    ensures d in t.chains && IsChain(v3.fat, t.chains[d]) && SlotsIn(g, v3, t.chains[d]) == SlotsIn(g, v, t.chains[d])
  {
    hide Shown, Slots, Fsck, Found, Grown, NextOf, VolOk;
    FileOk(g, v, t, d, p, loc);
    WriteKeepsDirectory(g, v, v1, v3, t, d, p, loc, chain, added);
  }

  lemma DataIsWritten(g: Geometry, v: Vol, v1: Vol, v3: Vol, t: Tree, d: nat, p: nat, loc: Location,
                      chain: seq<nat>, added: seq<nat>, offset: nat, data: seq<Byte>, b: seq<Byte>, b1: seq<Byte>,
                        b2: seq<Byte>)
    requires FileEntry(g, v, t, d, p, loc) && chain == ChainOr(t, loc.first) && Grown(g, v, v1, chain, added)
             && |chain + added| > 0
    requires Max(loc.size, offset + |data|) <= Row(|chain + added|, g.ClusterBytes())
    requires VolOk(g, v3) && v3.fat == v1.fat
    requires forall c | 0 <= c < g.count + 2 && c !in chain + added :: v3.data[c] == v1.data[c]
    requires b == Stored(g, v1, chain + added) && b2 == Stored(g, v3, chain + added)
    requires loc.size <= |b| && offset + |data| <= |b|
    requires b1 == if offset > loc.size then Splice(b, loc.size, Zeros(offset - loc.size)) else b
    requires b2 == Splice(b1, offset, data)
    ensures DataWritten(g, v, v3, t, d, p, loc, chain, added, offset, data)
  {
    hide Shown, Slots, Fsck, Found, Grown, IsChain, Stored, Overwritten, FileGrown, SlotsIn, Splice;
    WriteKeepsFile(g, v, v1, v3, t, d, p, loc, chain, added);
    WriteKeepsSlots(g, v, v1, v3, t, d, p, loc, chain, added);
    WriteMeansOverwrite(b, loc.size, offset, data, b1, b2);
    OldBytes(g, v, v1, t, d, p, loc, chain, added);
  }

  lemma OldBytes(g: Geometry, v: Vol, v1: Vol, t: Tree, d: nat, p: nat, loc: Location, chain: seq<nat>, added: seq<nat>)
    requires FileEntry(g, v, t, d, p, loc) && chain == ChainOr(t, loc.first) && Grown(g, v, v1, chain, added)
             && |chain + added| > 0
    ensures loc.size <= |Stored(g, v1, chain + added)|
    ensures Stored(g, v1, chain + added)[..loc.size] == Prefix(Stored(g, v, chain), loc.size)
  {
    hide Shown, Slots, Fsck, Found, IsPath, Stored, Grown;
    FileChain(g, v, t, d, p, loc);
    StoredSize(g, v, t, d, p, loc);
    StoredGrown(g, v, v1, chain, added);
  }

  lemma StoredGrown(g: Geometry, v: Vol, v1: Vol, chain: seq<nat>, added: seq<nat>)
    requires Grown(g, v, v1, chain, added) && |chain + added| > 0 && (chain == [] || IsChain(v.fat, chain))
    ensures Stored(g, v1, chain + added) == Stored(g, v, chain) + Zeros(Row(|added|, g.ClusterBytes()))
  {
    hide Content, IsChain;
    GrownBytes(g, v, v1, chain, added);
  }

  lemma StoredSize(g: Geometry, v: Vol, t: Tree, d: nat, p: nat, loc: Location)
    requires FileEntry(g, v, t, d, p, loc)
    ensures loc.size <= |Stored(g, v, ChainOr(t, loc.first))|
  {
    hide Fsck, Found, NextOf;
    FileChain(g, v, t, d, p, loc);
    FileOk(g, v, t, d, p, loc);
  }

  lemma FileOk(g: Geometry, v: Vol, t: Tree, d: nat, p: nat, loc: Location)
    requires FileEntry(g, v, t, d, p, loc)
    ensures VolOk(g, v) && ChainsOk(v.fat, t) && d in t.depth && d in t.chains && t.depth.Keys <= t.chains.Keys
    ensures IsChain(v.fat, t.chains[d]) && t.chains[d][0] == d
  {
  }

  /** The metadata write completes the operation. */
  lemma WriteDone(g: Geometry, v: Vol, v3: Vol, v4: Vol, t: Tree, d: nat, p: nat, loc: Location,
                  chain: seq<nat>, added: seq<nat>, offset: nat, data: seq<Byte>, s: seq<nat>, items: seq<Item>, h: nat,
                    needed: nat)
    requires DataWritten(g, v, v3, t, d, p, loc, chain, added, offset, data)
    requires s == t.chains[d] && items == Shown(g, v, s) && p < |items| && |chain + added| > 0
    requires h == (chain + added)[0] < 0x1_0000_0000 && needed == Max(loc.size, offset + |data|) < 0x1_0000_0000
    requires GrewTo(g, chain, chain + added, needed)
    requires VolOk(g, v4) && v4.fat == v3.fat
    requires forall x | 0 <= x < g.count + 2 && x != loc.cluster :: v4.data[x] == v3.data[x]
    requires items[p].slot < |SlotsIn(g, v3, s)|
    requires SlotsIn(g, v4, s) == SlotsIn(g, v3, s)[items[p].slot :=
             WithMetadata(SlotsIn(g, v3, s)[items[p].slot], h, needed)]
    ensures Fsck(g, v4, TreeAfterWrite(t, d, items[p].slot, h, chain + added))
    ensures WrotePosition(g, v, t, v4, TreeAfterWrite(t, d, items[p].slot, h, chain + added), d, p, offset, data)
  {
    hide Shown, Slots, SlotsIn, Fsck, Found, IsPath, Stored, Overwritten, WithMetadata, TreeAfterWrite, WrotePosition,
      FilesKept, DirsKept, DataKept, VolOk, Prefix, GrewTo;
    var t' := TreeAfterWrite(t, d, items[p].slot, h, chain + added);
    FileOk(g, v, t, d, p, loc);
    FoundPlace(g, v, t, d, p, loc);
    MetadataShown(g, v, v4, t, d, p, loc, h, needed);
    WriteKeepsOthers(g, v, v3, v4, t, d, h, chain, added, loc.cluster);
    FsckWrite(g, v, v4, t, d, items, p, h, added, needed);
    WrittenBytes(g, v, v3, v4, t, d, p, loc, chain, added, offset, data);
    WroteAssemble(g, v, v4, t, t', d, p, loc, chain, added, offset, data, items, h, needed);
  }

  lemma WrittenBytes(g: Geometry, v: Vol, v3: Vol, v4: Vol, t: Tree, d: nat, p: nat, loc: Location,
                     chain: seq<nat>, added: seq<nat>, offset: nat, data: seq<Byte>)
    requires DataWritten(g, v, v3, t, d, p, loc, chain, added, offset, data)
    requires VolOk(g, v4) && v4.fat == v3.fat && loc.cluster in t.chains[d]
    requires forall x | 0 <= x < g.count + 2 && x != loc.cluster :: v4.data[x] == v3.data[x]
    ensures Prefix(Stored(g, v4, chain + added), Max(loc.size, offset + |data|))
            == Overwritten(Prefix(Stored(g, v, chain), loc.size), offset, data)
  {
    hide Shown, Slots, Fsck, Found, NextOf, Content, Overwritten, Prefix;
    var grown := chain + added;
    forall i | 0 <= i < |grown| ensures v4.data[grown[i]] == v3.data[grown[i]] {
      assert grown[i] !in t.chains[d];
    }
    ContentFrame(g, v3, v4, grown);
  }

  /** `WroteFile` at a given position of the listing. */
  ghost predicate WrotePosition(g: Geometry, v: Vol, t: Tree, v': Vol, t': Tree, d: nat, p: nat, offset: nat,
                                data: seq<Byte>)
    requires d in t.chains
  {
    var items, items' := Shown(g, v, t.chains[d]), Shown(g, v', t.chains[d]);
    && p < |items| == |items'| && !items[p].isDir && t'.depth == t.depth && d in t'.chains
       && t'.chains[d] == t.chains[d]
    && items' == items[p := NewItem(items[p], items'[p].first, Max(items[p].size, offset + |data|))]
    && FileBytes(g, v', t', items'[p]) == Overwritten(FileBytes(g, v, t, items[p]), offset, data)
    && GrewTo(g, ChainOr(t, items[p].first), ChainOr(t', items'[p].first), Max(items[p].size, offset + |data|))
    && FilesKept(g, v, t, v', t', {items'[p].first}) && DirsKept(g, v, t, v', t', {d})
  }

  lemma GrewRoom(g: Geometry, chain: seq<nat>, grown: seq<nat>, needed: nat)
    requires GrewTo(g, chain, grown, needed)
    ensures needed <= Row(|grown|, g.ClusterBytes())
  {
  }

  lemma GrewEnough(g: Geometry, chain: seq<nat>, grown: seq<nat>, needed: nat)
    requires g.Valid() && chain <= grown
    requires var n := CeilRows(needed, g.ClusterBytes()); |grown| == if n > |chain| then n else |chain|
    ensures GrewTo(g, chain, grown, needed)
  {
    var n := CeilRows(needed, g.ClusterBytes());
    RowMonotoneEq(n, |grown|, g.ClusterBytes());
  }

  lemma WroteAssemble(g: Geometry, v: Vol, v4: Vol, t: Tree, t': Tree, d: nat, p: nat, loc: Location, chain: seq<nat>,
                      added: seq<nat>, offset: nat, data: seq<Byte>, items: seq<Item>, h: nat, needed: nat)
    requires FileEntry(g, v, t, d, p, loc) && chain == ChainOr(t, loc.first) && |chain + added| > 0 && d in t.chains
    requires items == Shown(g, v, t.chains[d]) && p < |items| && h != d && h == (chain + added)[0]
    requires needed == Max(loc.size, offset + |data|) && GrewTo(g, chain, chain + added, needed)
    requires t' == TreeAfterWrite(t, d, items[p].slot, h, chain + added)
    requires Shown(g, v4, t.chains[d]) == items[p := NewItem(items[p], h, needed)]
    requires Prefix(Stored(g, v4, chain + added), needed)
             == Overwritten(Prefix(Stored(g, v, chain), loc.size), offset, data)
    requires FilesKept(g, v, t, v4, t', {h}) && DirsKept(g, v, t, v4, t', {d})
    ensures WrotePosition(g, v, t, v4, t', d, p, offset, data)
  {
    hide Slots, Fsck, Found, IsPath, Stored, FilesKept, DirsKept, AllTo, Shown, Overwritten, Prefix, GrewTo;
    FileChain(g, v, t, d, p, loc);
  }

  lemma WroteIt(g: Geometry, v: Vol, t: Tree, v': Vol, t': Tree, d: nat, p: nat, name: seq<nat>, offset: nat,
                data: seq<Byte>)
    requires d in t.chains && p == FindItem(Shown(g, v, t.chains[d]), name, 0)
             && WrotePosition(g, v, t, v', t', d, p, offset, data)
    ensures WroteFile(g, v, t, v', t', d, name, offset, data)
  {
    hide Shown, FileBytes, FilesKept, DirsKept, Overwritten, FindItem, GrewTo;
  }

  lemma WroteKeepsParent(g: Geometry, v: Vol, t: Tree, v': Vol, t': Tree, d: nat, name: seq<nat>, offset: nat,
                         data: seq<Byte>)
    requires d in t.chains && d in t.depth && WroteFile(g, v, t, v', t', d, name, offset, data)
    ensures d in t'.chains && d in t'.depth
  {
  }

  // ----------------------------------------------------------------- reading

  /** A stretch of one cluster is the matching stretch of the chain. */
  lemma PieceRead(g: Geometry, v: Vol, s: seq<nat>, i: nat, o: nat, n: nat)
    requires VolOk(g, v) && InRange(v.fat, s) && i < |s| && o + n <= g.ClusterBytes()
    ensures Row(i, g.ClusterBytes()) + o + n <= |Stored(g, v, s)|
    ensures v.data[s[i]][o..o + n] == Stored(g, v, s)[Row(i, g.ClusterBytes()) + o..Row(i, g.ClusterBytes()) + o + n]
  {
    hide Flatten;
    var cb, b := g.ClusterBytes(), Stored(g, v, s);
    RowMonotone(i, |s|, cb);
    var x, y := v.data[s[i]][o..o + n], b[Row(i, cb) + o..Row(i, cb) + o + n];
    forall k | 0 <= k < n ensures x[k] == y[k] {
      FlattenAt(v.data, s, cb, i, o + k);
    }
  }

  lemma PositionInChain(p: nat, cb: nat, n: nat)
    requires cb > 0 && p < Row(n, cb)
    ensures RowOf(p, cb) < n
  {
    if n <= RowOf(p, cb) {
      RowMonotoneEq(n, RowOf(p, cb), cb);
    }
  }

  /** The row of a later position comes no earlier. */
  lemma RowOfMonotone(p: nat, q: nat, cb: nat)
    requires cb > 0 && p <= q
    ensures RowOf(p, cb) <= RowOf(q, cb)
  {
    hide RowOf;
    if RowOf(q, cb) < RowOf(p, cb) {
      RowMonotone(RowOf(q, cb), RowOf(p, cb), cb);
    }
  }

  lemma RowOfAt(i: nat, o: nat, cb: nat)
    requires o < cb
    ensures RowOf(Row(i, cb) + o, cb) == i
  {
    hide RowOf, ColumnOf;
    var p := Row(i, cb) + o;
    RowsDistinct(i, o, RowOf(p, cb), ColumnOf(p, cb), cb);
  }

  lemma SliceAppend<T>(b: seq<T>, i: nat, j: nat, k: nat)
    requires i <= j <= k <= |b|
    ensures b[i..j] + b[j..k] == b[i..k]
  {
  }

  /** A piece that did not finish the read ends at the end of its row, and another row follows. */
  lemma NextRow(i: nat, cb: nat, o: nat, n: nat, rows: nat, at: nat, end: nat)
    requires o < cb && at == Row(i, cb) + o && n == cb - o && at + n < end <= Row(rows, cb) && i < rows
    ensures i + 1 < rows && Row(i + 1, cb) == at + n
  {
  }

  lemma LastRow(i: nat, cb: nat, o: nat, n: nat, end: nat)
    requires 0 < n && o + n <= cb && Row(i, cb) + o + n == end
    ensures RowOf(end - 1, cb) == i
  {
    RowOfAt(i, o + n - 1, cb);
  }

  function Slice<T>(b: seq<T>, i: nat, j: nat): seq<T> { if i <= j <= |b| then b[i..j] else [] }

  lemma SlicePrefix<T>(b: seq<T>, n: nat, i: nat, j: nat)
    requires i <= j <= n <= |b|
    ensures Slice(Prefix(b, n), i, j) == Slice(b, i, j) == b[i..j]
  {
  }

  function Min(a: nat, b: nat): nat { if a < b then a else b }

  /** A file entry that is not empty has a chain that holds its bytes. */
  lemma EntryChain(g: Geometry, v: Vol, t: Tree, d: nat, p: nat, it: Item)
    requires Fsck(g, v, t) && ListsEntry(g, v, t, d, p, it) && !it.isDir && it.size > 0
    ensures it.first in t.chains && IsChain(v.fat, t.chains[it.first]) && t.chains[it.first][0] == it.first
    ensures it.size <= Row(|t.chains[it.first]|, g.ClusterBytes())
  {
    hide Shown, DirOk, OwnerOk, IsPath;
    GetItem(g.root, g.ClusterBytes(), t, AllListings(g, v, t), d, p);
  }

  lemma StoredLength(g: Geometry, v: Vol, s: seq<nat>)
    requires VolOk(g, v) && IsChain(v.fat, s)
    ensures |Stored(g, v, s)| == Row(|s|, g.ClusterBytes())
  {
  }

  /** Clusters of a file or a listed directory from this number on are never read. */
  const MAX_CHAIN_STEPS: nat := 1_000_000

  /** The directory stored in the clusters `s` cannot be listed: it goes on behind the clusters that are read. */
  ghost predicate Overlong(g: Geometry, v: Vol, s: seq<nat>)
  {
    && |s| > MAX_CHAIN_STEPS && Row(MAX_CHAIN_STEPS, SlotsPerCluster(g)) <= |SlotsIn(g, v, s)|
    && !Run(SlotsIn(g, v, s), Row(MAX_CHAIN_STEPS, SlotsPerCluster(g))).ended
  }

  /** What reading `len` bytes at `offset` of the file of entry `it` must give: the matching slice of
      its bytes, unless that slice reaches a cluster the reader refuses. */
  ghost function ReadResult(g: Geometry, v: Vol, t: Tree, it: Item, offset: nat, len: nat): Result<seq<Byte>, FatError>
    requires g.Valid()
  {
    if it.isDir then Err(IsDirectory)
    else if offset >= it.size || len == 0 then Ok([])
    else
      var end := Min(offset + len, it.size);
      if RowOf(end - 1, g.ClusterBytes()) < MAX_CHAIN_STEPS then Ok(Slice(FileBytes(g, v, t, it), offset, end))
        else Err(Corrupt)
  }

  /** Position `p` of directory `d` lists the entry `it`. */
  ghost predicate ListsEntry(g: Geometry, v: Vol, t: Tree, d: nat, p: nat, it: Item)
  {
    d in t.depth && d in t.chains && p < |Shown(g, v, t.chains[d])| && Shown(g, v, t.chains[d])[p] == it
      && !IsDot(it.name)
  }

  /** The errors of `write_at`, in the order it finds them. */
  ghost function WriteError(g: Geometry, v: Vol, t: Tree, items: seq<Item>, name: seq<nat>, offset: nat,
                            len: nat): Option<FatError>
    requires g.Valid()
  {
    var p := FindItem(items, name, 0);
    if len == 0 then None
    else if offset + len > 0xffff_ffff then Some(TooLarge)
    else if !NameOk(name) then Some(InvalidName)
    else if p == |items| then Some(NotFound)
    else if items[p].isDir then Some(IsDirectory)
    else if |FreeSet(v.fat)| + |ChainOr(t, items[p].first)| < CeilRows(Max(items[p].size, offset + len),
      g.ClusterBytes()) then Some(NoSpace)
    else None
  }

  /** Read over write: after a successful write, any read of that file gives the matching slice of the
      overwritten contents, as long as it stays below the clusters the reader refuses. */
  lemma ReadOverWrite(g: Geometry, v: Vol, t: Tree, v': Vol, t': Tree, d: nat, name: seq<nat>, offset: nat,
                      data: seq<Byte>,
                      at: nat, len: nat)
    requires g.Valid() && d in t.chains && WroteFile(g, v, t, v', t', d, name, offset, data)
    requires at + len <= Row(MAX_CHAIN_STEPS, g.ClusterBytes())
    ensures var p := FindItem(Shown(g, v, t.chains[d]), name, 0);
            var it, it' := Shown(g, v, t.chains[d])[p], Shown(g, v', t.chains[d])[p];
            var bytes := Overwritten(FileBytes(g, v, t, it), offset, data);
            ReadResult(g, v', t', it', at, len) == Ok(if at < it'.size then Slice(bytes, at, Min(at + len, it'.size))
              else [])
  {
    hide Shown, FindItem, FilesKept, DirsKept, RowOf, Overwritten, FileBytes, Slice;
    var p := FindItem(Shown(g, v, t.chains[d]), name, 0);
    var it' := Shown(g, v', t.chains[d])[p];
    if at < it'.size && len > 0 {
      PositionInChain(Min(at + len, it'.size) - 1, g.ClusterBytes(), MAX_CHAIN_STEPS);
    } else {
      SliceEmpty(Overwritten(FileBytes(g, v, t, Shown(g, v, t.chains[d])[p]), offset, data), at);
    }
  }

  lemma SliceEmpty<T>(b: seq<T>, at: nat)
    ensures Slice(b, at, at) == []
  {
  }
}
