/** Lemmas that carry a truncation or a removal from the found entry to the checked volume. */
module FatRemove {
  import opened Bytes
  import opened Wrappers
  import opened Rows
  import opened FatChains
  import opened FatLayout
  import opened FatContent
  import opened FatDirectory
  import opened FatTree
  import opened FatVolume
  import opened FatFsck
  import opened FatSteps
  import opened FatWrite

  /** The errors of `truncate`, which changes nothing when it fails. */
  ghost function TruncateError(items: seq<Item>, name: seq<nat>): Option<FatError>
  {
    var p := FindItem(items, name, 0);
    if !NameOk(name) then Some(InvalidName)
    else if p == |items| then Some(NotFound)
    else if items[p].isDir then Some(IsDirectory)
    else None
  }

  /** Only the directory changed its contents. */
  lemma DirectoryWriteKeeps(g: Geometry, v: Vol, v': Vol, t: Tree, d: nat)
    requires VolOk(g, v) && VolOk(g, v') && MembersOk(t) && CoverOk(v.fat, t) && d in t.chains
    requires forall c | 0 <= c < g.count + 2 && c !in t.chains[d] :: v'.data[c] == v.data[c]
    ensures DataKept(v, v', t, {d})
  {
  }

  lemma FreedChain(g: Geometry, v: Vol, v1: Vol, v2: Vol, t: Tree, h: nat, chain: seq<nat>)
    requires VolOk(g, v) && VolOk(g, v2) && v1.fat == v.fat && chain == ChainOr(t, h)
    requires forall c | 0 <= c < g.count + 2 :: v2.fat[c] == if c in chain then 0 else v1.fat[c]
    ensures Freed(v.fat, v2.fat, t, h)
  {
  }

  lemma TruncateDone(g: Geometry, v: Vol, v1: Vol, v2: Vol, t: Tree, d: nat, p: nat, loc: Location, s: seq<nat>,
                     items: seq<Item>)
    requires FileEntry(g, v, t, d, p, loc) && s == t.chains[d] && items == Shown(g, v, s) && p < |items|
    requires VolOk(g, v1) && v1.fat == v.fat && VolOk(g, v2) && v2.data == v1.data && loc.cluster in s
    requires forall x | 0 <= x < g.count + 2 && x != loc.cluster :: v1.data[x] == v.data[x]
    requires items[p].slot < |SlotsIn(g, v, s)|
    requires SlotsIn(g, v1, s) == SlotsIn(g, v, s)[items[p].slot := WithMetadata(SlotsIn(g, v, s)[items[p].slot], 0, 0)]
    requires forall c | 0 <= c < g.count + 2 :: v2.fat[c] == if c in ChainOr(t, loc.first) then 0 else v1.fat[c]
    ensures items[p].first == 0 || items[p].first in t.chains
    ensures var t' := Released(t, items[p].first);
            Fsck(g, v2, t') && TruncatedAt(g, v, t, v2, t', d, p)
  {
    hide Shown, Slots, SlotsIn, Found, IsPath, WithMetadata, FilesKept, DirsKept, DataKept, TreeOk, HeadsOk, MembersOk,
      CoverOk, Released, Freed;
    FileChain(g, v, t, d, p, loc);
    FoundNotDot(g, v, t, d, p, loc);
    FileOk(g, v, t, d, p, loc);
    MetadataShown(g, v, v1, t, d, p, loc, 0, 0);
    assert Shown(g, v2, s) == Shown(g, v1, s) by {
      ChainInRange(v.fat, s);
      ShownFrame(g, v1, v2, s);
    }
    DirectoryWriteKeeps(g, v, v2, t, d);
    FreedChain(g, v, v1, v2, t, loc.first, ChainOr(t, loc.first));
    FsckTruncate(g, v, v2, t, d, items, p);
    ReleasedDepth(t, loc.first);
  }

  ghost predicate TruncatedAt(g: Geometry, v: Vol, t: Tree, v': Vol, t': Tree, d: nat, p: nat)
    requires d in t.chains
  {
    var items := Shown(g, v, t.chains[d]);
    && p < |items| && !items[p].isDir && t'.depth == t.depth
    && Shown(g, v', t.chains[d]) == items[p := NewItem(items[p], 0, 0)]
    && FilesKept(g, v, t, v', t', {items[p].first}) && DirsKept(g, v, t, v', t', {d})
    && OnlyFreed(v, v', ChainOr(t, items[p].first))
  }

  lemma TruncatedIt(g: Geometry, v: Vol, t: Tree, v': Vol, t': Tree, d: nat, p: nat, name: seq<nat>)
    requires d in t.chains && d in t.depth && p == FindItem(Shown(g, v, t.chains[d]), name, 0)
             && TruncatedAt(g, v, t, v', t', d, p)
    requires Fsck(g, v', t')
    ensures TruncatedFile(g, v, t, v', t', d, name) && d in t'.depth && d in t'.chains
  {
    hide Shown, FilesKept, DirsKept, FindItem, TreeOk, ChainsOk, VolOk;
  }

  // ---------------------------------------------------------------- removal

  /** The errors of `remove`, which changes nothing when it fails. A directory must list no entries. */
  ghost function RemoveError(g: Geometry, v: Vol, t: Tree, items: seq<Item>, name: seq<nat>): Option<FatError>
  {
    var p := FindItem(items, name, 0);
    if !NameOk(name) then Some(InvalidName)
    else if p == |items| then Some(NotFound)
    else if items[p].isDir && Overlong(g, v, ChainOr(t, items[p].first)) then Some(Corrupt)
    else if items[p].isDir && !OnlyDots(Shown(g, v, ChainOr(t, items[p].first))) then Some(DirectoryNotEmpty)
    else None
  }

  /** Where slot `n` of the chain `s` is stored. */
  ghost function PlaceOf(g: Geometry, s: seq<nat>, n: nat): (nat, nat)
    requires g.Valid() && n < Row(|s|, SlotsPerCluster(g))
  {
    PlaceBound(g, |s|, n);
    (s[RowOf(n, SlotsPerCluster(g))], ColumnOf(n, SlotsPerCluster(g)) * SLOT_SIZE)
  }

  ghost predicate PlacesOf(g: Geometry, s: seq<nat>, m: nat, n: nat, places: seq<(nat, nat)>)
    requires g.Valid() && m <= n <= Row(|s|, SlotsPerCluster(g))
  {
    |places| == n - m && forall x | 0 <= x < |places| :: places[x] == PlaceOf(g, s, m + x)
  }

  lemma PlaceOfAt(g: Geometry, s: seq<nat>, i: nat, j: nat)
    requires g.Valid() && i < |s| && j < SlotsPerCluster(g)
    ensures Row(i, SlotsPerCluster(g)) + j < Row(|s|, SlotsPerCluster(g))
    ensures PlaceOf(g, s, Row(i, SlotsPerCluster(g)) + j) == (s[i], j * SLOT_SIZE)
  {
    hide RowOf, ColumnOf;
    var k := SlotsPerCluster(g);
    var n := Row(i, k) + j;
    RowMonotone(i, |s|, k);
    PlaceBound(g, |s|, n);
    RowsDistinct(i, j, RowOf(n, k), ColumnOf(n, k), k);
  }

  /** Different slots stand at different places. */
  lemma PlaceOfUnique(g: Geometry, s: seq<nat>, a: nat, b: nat)
    requires g.Valid() && NoDup(s) && a < Row(|s|, SlotsPerCluster(g)) && b < Row(|s|, SlotsPerCluster(g))
    ensures PlaceOf(g, s, a) == PlaceOf(g, s, b) ==> a == b
  {
    hide RowOf, ColumnOf;
    PlaceBound(g, |s|, a);
    PlaceBound(g, |s|, b);
  }

  /** Before a listed entry no slot is unused. */
  lemma LiveBefore(slots: seq<Slot>, k: nat, n: nat)
    requires k < |slots| && Lists(slots, k) && n <= k
    ensures slots[n][0] != 0
  {
    hide Step;
    RunEndsIff(slots, k);
  }

  lemma PendingNext(slots: seq<Slot>, n: nat)
    requires n < |slots| && slots[n][0] != 0
    ensures PendingStart(slots, n + 1) == if slots[n][0] != DELETED && IsLfn(slots[n]) then PendingStart(slots, n)
            else n + 1
  {
  }

  lemma RemovedListing(slots: seq<Slot>, k: nat, p: nat)
    requires k < |slots| && Lists(slots, k) && p == |Run(slots, k).out|
    ensures p < |Listing(slots)|
    ensures Listing(Tombstoned(slots, PendingStart(slots, k), k + 1)) == Without(Listing(slots), p)
  {
    hide Step, Lists, PendingStart, Without;
    RemovalRun(slots, k, |slots|);
  }

  lemma UnlinkedBytes(slots: seq<Slot>, k: nat)
    requires k < |slots| && forall i | 0 <= i <= k :: slots[i][0] != 0
    ensures OnlyUnlinked(slots, Tombstoned(slots, PendingStart(slots, k), k + 1), k)
  {
    hide PendingStart, Tombstoned;
    var m := PendingStart(slots, k);
    PendingBegins(slots, k);
    forall i | 0 <= i < |slots| ensures BelongsTo(slots, i, k) <==> m <= i <= k {
      if i < m {
        assert i <= m - 1 < k;
      }
    }
  }

  /** The slot before the first pending record holds none. */
  lemma {:induction false} PendingBegins(slots: seq<Slot>, k: nat)
    requires k < |slots| && forall i | 0 <= i <= k :: slots[i][0] != 0
    ensures var m := PendingStart(slots, k); m > 0 ==> slots[m - 1][0] == 0xe5 || slots[m - 1][11] != 0x0f
  {
    if k > 0 {
      PendingBegins(slots, k - 1);
    }
  }

  /** Deleting the records shows up as the entry leaving the listing. */
  lemma RemovedShown(g: Geometry, v: Vol, v1: Vol, t: Tree, d: nat, p: nat, loc: Location, s: seq<nat>,
                     items: seq<Item>)
    requires Found(g, v, t, d, p, loc) && s == t.chains[d] && items == Shown(g, v, s) && p < |items| && VolOk(g, v1)
    requires items[p].slot < |SlotsIn(g, v, s)|
    requires SlotsIn(g, v1, s) == Tombstoned(SlotsIn(g, v, s), PendingStart(SlotsIn(g, v, s), items[p].slot),
             items[p].slot + 1)
    ensures Shown(g, v1, s) == Without(items, p)
    ensures OnlyUnlinked(SlotsIn(g, v, s), SlotsIn(g, v1, s), items[p].slot)
  {
    hide Slots, Run, Lists, Listing, Tombstoned, PendingStart, Without, NextOf, OnlyUnlinked;
    var slots := SlotsIn(g, v, s);
    RemovedListing(slots, items[p].slot, p);
    forall i | 0 <= i <= items[p].slot ensures slots[i][0] != 0 {
      LiveBefore(slots, items[p].slot, i);
    }
    UnlinkedBytes(slots, items[p].slot);
  }

  /** The volume passes the check and position `p` of directory `d` is an entry at `loc` that may go. */
  ghost predicate RemovableEntry(g: Geometry, v: Vol, t: Tree, d: nat, p: nat, loc: Location)
  {
    && Fsck(g, v, t) && Found(g, v, t, d, p, loc)
    && (loc.isDir ==> loc.first in t.chains && OnlyDots(Shown(g, v, t.chains[loc.first])))
  }

  lemma RemovableFacts(g: Geometry, v: Vol, t: Tree, d: nat, p: nat, loc: Location)
    requires Fsck(g, v, t) && Found(g, v, t, d, p, loc)
    ensures d in t.depth && d in t.chains && IsChain(v.fat, t.chains[d]) && t.chains[d][0] == d
    ensures var items := Shown(g, v, t.chains[d]);
            p < |items| && !IsDot(items[p].name) && items[p].first == loc.first && items[p].isDir == loc.isDir
    ensures loc.first != d && (loc.first == 0 || loc.first in t.chains) && (loc.isDir <==> loc.first in t.depth)
            && 0 !in t.chains
    ensures loc.isDir ==> loc.first != 0 && loc.first in t.chains
    ensures loc.first != 0 ==> IsChain(v.fat, ChainOr(t, loc.first)) && ChainOr(t, loc.first)[0] == loc.first
    ensures loc.first == 0 ==> ChainOr(t, loc.first) == []
  {
    hide Shown, Slots, TreeOk, IsPath, Lists, ItemAt, Run;
    TruncateHead(g, v, t, d, Shown(g, v, t.chains[d]), p);
  }

  lemma RemoveDone(g: Geometry, v: Vol, v1: Vol, v2: Vol, t: Tree, d: nat, p: nat, loc: Location, s: seq<nat>,
                   items: seq<Item>)
    requires RemovableEntry(g, v, t, d, p, loc) && s == t.chains[d] && items == Shown(g, v, s) && p < |items|
    requires VolOk(g, v1) && v1.fat == v.fat && VolOk(g, v2) && v2.data == v1.data
    requires forall x | 0 <= x < g.count + 2 && x !in s :: v1.data[x] == v.data[x]
    requires items[p].slot < |SlotsIn(g, v, s)|
    requires SlotsIn(g, v1, s) == Tombstoned(SlotsIn(g, v, s), PendingStart(SlotsIn(g, v, s), items[p].slot),
             items[p].slot + 1)
    requires forall c | 0 <= c < g.count + 2 :: v2.fat[c] == if c in ChainOr(t, loc.first) then 0 else v1.fat[c]
    ensures items[p].first == 0 || items[p].first in t.chains
    ensures var t' := Released(t, items[p].first);
            Fsck(g, v2, t') && RemovedAt(g, v, t, v2, t', d, p)
  {
    hide Shown, Slots, SlotsIn, Found, IsPath, FilesKept, DirsKept, DataKept, TreeOk, HeadsOk, MembersOk, CoverOk,
      Released, Freed, Tombstoned, PendingStart, Without, OnlyDots, OnlyUnlinked;
    RemovableFacts(g, v, t, d, p, loc);
    RemovedShown(g, v, v1, t, d, p, loc, s, items);
    assert Shown(g, v2, s) == Shown(g, v1, s) && SlotsIn(g, v2, s) == SlotsIn(g, v1, s) by {
      ChainInRange(v.fat, s);
      ShownFrame(g, v1, v2, s);
    }
    DirectoryWriteKeeps(g, v, v2, t, d);
    FreedChain(g, v, v1, v2, t, loc.first, ChainOr(t, loc.first));
    FsckRemove(g, v, v2, t, d, items, p);
    ReleasedGone(t, loc.first);
  }

  lemma ReleasedGone(t: Tree, h: nat)
    requires (h == 0 || h in t.chains) && 0 !in t.chains
    ensures h !in Released(t, h).chains
  {
  }

  ghost predicate RemovedAt(g: Geometry, v: Vol, t: Tree, v': Vol, t': Tree, d: nat, p: nat)
    requires d in t.chains
  {
    var items := Shown(g, v, t.chains[d]);
    && p < |items| && Shown(g, v', t.chains[d]) == Without(items, p)
    && FilesKept(g, v, t, v', t', {items[p].first}) && DirsKept(g, v, t, v', t', {d, items[p].first})
    && items[p].first !in t'.chains && OnlyFreed(v, v', ChainOr(t, items[p].first))
    && OnlyUnlinked(SlotsIn(g, v, t.chains[d]), SlotsIn(g, v', t.chains[d]), items[p].slot)
  }

  lemma RemovedIt(g: Geometry, v: Vol, t: Tree, v': Vol, d: nat, p: nat, name: seq<nat>, h: nat)
    requires d in t.chains && d in t.depth && p == FindItem(Shown(g, v, t.chains[d]), name, 0)
    requires (h == 0 || h in t.chains) && h != d && RemovedAt(g, v, t, v', Released(t, h), d, p)
    ensures RemovedEntry(g, v, t, v', Released(t, h), d, name) && d in Released(t, h).depth
            && d in Released(t, h).chains
  {
  }

  lemma FileClusters(fat: seq<nat>, first: nat, chain: seq<nat>)
    requires first == 0 ==> chain == []
    requires first != 0 ==> IsChain(fat, chain)
    ensures InRange(fat, chain)
  {
  }

  /** A directory whose end marker was met among the clusters that are read can be listed. */
  lemma EndedEarly(g: Geometry, v: Vol, s: seq<nat>, k: nat)
    requires k <= MAX_CHAIN_STEPS && Row(k, SlotsPerCluster(g)) <= |SlotsIn(g, v, s)|
    requires Run(SlotsIn(g, v, s), Row(k, SlotsPerCluster(g))).ended
    ensures !Overlong(g, v, s)
  {
    hide SlotsIn, Run, Row;
    if k < MAX_CHAIN_STEPS {
      RowMonotone(k, MAX_CHAIN_STEPS, SlotsPerCluster(g));
    }
    if Overlong(g, v, s) {
      RunEnded(SlotsIn(g, v, s), Row(k, SlotsPerCluster(g)), Row(MAX_CHAIN_STEPS, SlotsPerCluster(g)));
      assert false;
    }
  }

  lemma GatheredNone(g: Geometry, s: seq<nat>, slots: seq<Slot>)
    requires g.Valid() && |slots| == Row(|s|, SlotsPerCluster(g))
    ensures Gathered(g, s, slots, 0, [])
  {
  }

  /** `pending` are the places of the long-name records right before slot `n`. */
  ghost predicate Gathered(g: Geometry, s: seq<nat>, slots: seq<Slot>, n: nat, pending: seq<(nat, nat)>)
  {
    && g.Valid() && |slots| == Row(|s|, SlotsPerCluster(g)) && n <= |slots|
    && PlacesOf(g, s, PendingStart(slots, n), n, pending)
  }

  lemma GatheredNext(g: Geometry, s: seq<nat>, slots: seq<Slot>, n: nat, pending: seq<(nat, nat)>)
    requires Gathered(g, s, slots, n, pending) && n < |slots| && slots[n][0] != 0
    ensures var more := pending + [PlaceOf(g, s, n)];
            && PlacesOf(g, s, PendingStart(slots, n), n + 1, more)
            && Gathered(g, s, slots, n + 1, if slots[n][0] != DELETED && IsLfn(slots[n]) then more else [])
  {
    hide PendingStart, PlaceOf;
    PendingNext(slots, n);
  }

  /** What the search for the entry of slot `k` reads at slot `j` of the `i`-th cluster. */
  lemma RecordHere(g: Geometry, v: Vol, s: seq<nat>, i: nat, j: nat, k: nat)
    requires VolOk(g, v) && InRange(v.fat, s) && NoDup(s) && i < |s| && j < SlotsPerCluster(g)
    requires k < |Slots(g, v, s)| && Lists(Slots(g, v, s), k) && Row(i, SlotsPerCluster(g)) + j <= k
    ensures var n, slots := Row(i, SlotsPerCluster(g)) + j, Slots(g, v, s);
            && j * SLOT_SIZE + SLOT_SIZE <= g.ClusterBytes() && n < |slots|
            && slots[n] == v.data[s[i]][j * SLOT_SIZE..j * SLOT_SIZE + SLOT_SIZE]
            && slots[n][0] != 0 && PlaceOf(g, s, n) == (s[i], j * SLOT_SIZE)
            && (PlaceOf(g, s, n) == PlaceOf(g, s, k) <==> n == k)
            && (slots[n][0] == DELETED || IsLfn(slots[n]) ==> n < k)
  {
    hide Slots, PlaceOf, Lists;
    SlotRead(g, v, s, i, j);
    PlaceOfAt(g, s, i, j);
    PlaceOfUnique(g, s, Row(i, SlotsPerCluster(g)) + j, k);
    LiveBefore(Slots(g, v, s), k, Row(i, SlotsPerCluster(g)) + j);
    RecordPassed(Slots(g, v, s), Row(i, SlotsPerCluster(g)) + j, k);
  }

  /** A slot that is deleted, a long-name record or stands elsewhere is not the entry's short record. */
  lemma RecordPassed(slots: seq<Slot>, n: nat, k: nat)
    requires k < |slots| && Lists(slots, k) && n <= k
    ensures slots[n][0] == DELETED || IsLfn(slots[n]) ==> n < k
  {
  }

  lemma DeletedWhole(e: Slot)
    ensures Splice(e, 0, Deleted(e)) == Deleted(e)
  {
  }

  /** Deleting record after record. */
  lemma TombstonesStep(slots: seq<Slot>, m: nat, n: nat)
    requires m <= n < |slots|
    ensures Tombstoned(slots, m, n)[n] == slots[n]
    ensures Tombstoned(slots, m, n)[n := Deleted(slots[n])] == Tombstoned(slots, m, n + 1)
  {
  }

  lemma TombstonesStart(slots: seq<Slot>, m: nat)
    requires m <= |slots|
    ensures Tombstoned(slots, m, m) == slots
  {
  }

  lemma PlaceFacts(g: Geometry, v: Vol, t: Tree, d: nat, p: nat, loc: Location)
    requires Found(g, v, t, d, p, loc)
    ensures var s, n := t.chains[d], Shown(g, v, t.chains[d])[p].slot;
            && n < |SlotsIn(g, v, s)| && Lists(SlotsIn(g, v, s), n) && (loc.cluster, loc.offset) == PlaceOf(g, s, n)
  {
    hide Lists, ItemAt, Run, Shown;
    PlaceBound(g, |t.chains[d]|, Shown(g, v, t.chains[d])[p].slot);
  }
}
