/** A volume as the driver reads it (first table copy and cluster contents), what it means for it to
    be well-formed, and how growing chains and writing slots change it. */
module FatVolume {
  import opened Bytes
  import opened FatChains
  import opened FatLayout
  import opened FatContent
  import opened FatDirectory
  import opened FatNames
  import opened FatTree
  import opened Rows

  datatype Vol = Vol(fat: seq<nat>, data: seq<seq<Byte>>)

  ghost predicate VolOk(g: Geometry, v: Vol)
  {
    && g.Valid()
    && |v.fat| == |v.data| == g.count + 2
    && (forall c | 2 <= c < |v.data| :: |v.data[c]| == g.ClusterBytes())
  }

  lemma SameLengths(g: Geometry, v: Vol, v': Vol)
    requires VolOk(g, v) && VolOk(g, v')
    ensures |v.fat| == |v'.fat| == |v.data| == |v'.data| == g.count + 2
  {
  }

  ghost function View(g: Geometry, disk: Disk): (v: Vol)
    requires g.Valid() && Fits(g, disk)
    ensures VolOk(g, v)
  {
    Vol(FatOf(g, disk), DataOf(g, disk))
  }

  /** Every cluster number can be stored as a link and read back (see `FatChains.LinksReadBack`). */
  predicate Linkable(g: Geometry) { g.count + 2 <= LINK_LIMIT }

  // ------------------------------------------------------- slots of a chain

  function SlotsPerCluster(g: Geometry): nat { g.sectorsPerCluster * 16 }

  lemma {:induction false} RowScale(k: nat, n: nat)
    ensures Row(k, n * SLOT_SIZE) == Row(k, n) * SLOT_SIZE
  {
    if k > 0 {
      RowScale(k - 1, n);
    }
  }

  ghost function Content(g: Geometry, v: Vol, s: seq<nat>): (r: seq<Byte>)
    requires VolOk(g, v) && InRange(v.fat, s)
    ensures |r| == Row(|s|, g.ClusterBytes())
  {
    Flatten(v.data, s, g.ClusterBytes())
  }

  ghost function Slots(g: Geometry, v: Vol, s: seq<nat>): (r: seq<Slot>)
    requires VolOk(g, v) && InRange(v.fat, s)
    ensures |r| == Row(|s|, SlotsPerCluster(g))
  {
    RowScale(|s|, SlotsPerCluster(g));
    Chunks(Content(g, v, s))
  }

  lemma ContentFrame(g: Geometry, v: Vol, v': Vol, s: seq<nat>)
    requires VolOk(g, v) && VolOk(g, v') && InRange(v.fat, s)
    requires forall i | 0 <= i < |s| :: v.data[s[i]] == v'.data[s[i]]
    ensures Content(g, v, s) == Content(g, v', s)
    ensures Slots(g, v, s) == Slots(g, v', s)
  {
    FlattenFrame(v.data, v'.data, s, g.ClusterBytes());
  }

  /** Slot `j` of the `i`-th cluster: its number in the chain and its byte position. */
  lemma SlotPlace(g: Geometry, n: nat, i: nat, j: nat)
    requires i < n && j < SlotsPerCluster(g)
    ensures j * SLOT_SIZE + SLOT_SIZE <= g.ClusterBytes()
    ensures Row(i, g.ClusterBytes()) + j * SLOT_SIZE == (Row(i, SlotsPerCluster(g)) + j) * SLOT_SIZE
    ensures Row(i, SlotsPerCluster(g)) + j < Row(n, SlotsPerCluster(g))
  {
  }

  /** Overwriting part of a slot where it is stored changes exactly that slot. */
  lemma SlotWrite(g: Geometry, v: Vol, s: seq<nat>, i: nat, j: nat, o: nat, piece: seq<Byte>, v': Vol)
    requires VolOk(g, v) && InRange(v.fat, s) && NoDup(s) && i < |s| && j < SlotsPerCluster(g)
             && o + |piece| <= SLOT_SIZE
    requires v' == v.(data := v.data[s[i] := Splice(v.data[s[i]], j * SLOT_SIZE + o, piece)])
    ensures VolOk(g, v') && Row(i, SlotsPerCluster(g)) + j < |Slots(g, v, s)|
    ensures var n := Row(i, SlotsPerCluster(g)) + j;
            Slots(g, v', s) == Slots(g, v, s)[n := Splice(Slots(g, v, s)[n], o, piece)]
  {
    hide Chunks, Flatten;
    SlotPlace(g, |s|, i, j);
    FlattenSplice(v.data, s, g.ClusterBytes(), i, j * SLOT_SIZE + o, piece);
    ContentSplice(Content(g, v, s), Row(|s|, SlotsPerCluster(g)), Row(i, SlotsPerCluster(g)) + j, o, piece, |s|,
      SlotsPerCluster(g));
  }

  lemma ContentSplice(b: seq<Byte>, total: nat, n: nat, o: nat, piece: seq<Byte>, len: nat, k: nat)
    requires |b| == Row(len, k * SLOT_SIZE) && total == Row(len, k) && n < total && o + |piece| <= SLOT_SIZE
    ensures |b| == total * SLOT_SIZE
    ensures Chunks(Splice(b, n * SLOT_SIZE + o, piece)) == Chunks(b)[n := Splice(Chunks(b)[n], o, piece)]
  {
    RowScale(len, k);
    ChunksSplice(b, n, o, piece);
  }

  function ZeroSlots(n: nat): (r: seq<Slot>)
    ensures |r| == n && forall i | 0 <= i < n :: r[i] == Zeros(SLOT_SIZE)
  {
    seq(n, _ => Zeros(SLOT_SIZE))
  }

  lemma ChunksOfZeros(n: nat)
    ensures Chunks(Zeros(n * SLOT_SIZE)) == ZeroSlots(n)
  {
    var r := Chunks(Zeros(n * SLOT_SIZE));
    forall i | 0 <= i < n ensures r[i] == Zeros(SLOT_SIZE) {
      assert forall k | 0 <= k < SLOT_SIZE :: r[i][k] == 0;
    }
  }

  /** Appending zeroed clusters appends empty slots. */
  lemma SlotsExtend(g: Geometry, v: Vol, s: seq<nat>, added: seq<nat>)
    requires VolOk(g, v) && InRange(v.fat, s) && InRange(v.fat, added)
    requires forall i | 0 <= i < |added| :: v.data[added[i]] == Zeros(g.ClusterBytes())
    ensures InRange(v.fat, s + added)
    ensures Slots(g, v, s + added) == Slots(g, v, s) + ZeroSlots(Row(|added|, SlotsPerCluster(g)))
  {
    hide Chunks, Content, Row, ZeroSlots, VolOk, Zeros, SlotsPerCluster, Geometry.ClusterBytes;
    SlotBytes(g);
    ContentExtend(g, v, s, added);
    ZeroTail(Content(g, v, s), |s|, |added|, SlotsPerCluster(g));
  }

  lemma SlotBytes(g: Geometry)
    ensures g.ClusterBytes() == SlotsPerCluster(g) * SLOT_SIZE
  {
  }

  lemma ContentExtend(g: Geometry, v: Vol, s: seq<nat>, added: seq<nat>)
    requires VolOk(g, v) && InRange(v.fat, s) && InRange(v.fat, added)
    requires forall i | 0 <= i < |added| :: v.data[added[i]] == Zeros(g.ClusterBytes())
    ensures InRange(v.fat, s + added)
    ensures Content(g, v, s + added) == Content(g, v, s) + Zeros(Row(|added|, g.ClusterBytes()))
  {
    hide Flatten, Row, Zeros;
    FlattenAppend(v.data, s, added, g.ClusterBytes());
    FlattenZeros(v.data, added, g.ClusterBytes());
  }

  lemma ZeroTail(b: seq<Byte>, len: nat, more: nat, k: nat)
    requires |b| == Row(len, k * SLOT_SIZE)
    ensures Chunks(b + Zeros(Row(more, k * SLOT_SIZE))) == Chunks(b) + ZeroSlots(Row(more, k))
  {
    hide Chunks;
    RowScale(len, k);
    RowScale(more, k);
    ChunksAppend(b, Zeros(Row(more, k) * SLOT_SIZE));
    ChunksOfZeros(Row(more, k));
  }

  // -------------------------------------------------- the file-system check

  /** What a directory stored in the clusters `s` lists. */
  ghost function Shown(g: Geometry, v: Vol, s: seq<nat>): seq<Item>
  {
    if VolOk(g, v) && InRange(v.fat, s) then Listing(Slots(g, v, s)) else []
  }

  ghost function SlotsIn(g: Geometry, v: Vol, s: seq<nat>): seq<Slot>
  {
    if VolOk(g, v) && InRange(v.fat, s) then Slots(g, v, s) else []
  }

  /** The bytes stored in the clusters `s`. */
  ghost function Stored(g: Geometry, v: Vol, s: seq<nat>): seq<Byte>
  {
    if VolOk(g, v) && InRange(v.fat, s) then Content(g, v, s) else []
  }

  /** The listings of all directories of the tree. */
  ghost function AllListings(g: Geometry, v: Vol, t: Tree): (ls: Listings)
  {
    map d | d in t.depth && d in t.chains :: Shown(g, v, t.chains[d])
  }

  /** The volume passes a full file-system check: chains reachable from the root end, are acyclic and
      disjoint, cover exactly the used clusters, and every entry's chain can hold its size. */
  ghost predicate Fsck(g: Geometry, v: Vol, t: Tree)
  {
    && VolOk(g, v) && ChainsOk(v.fat, t) && t.depth.Keys <= t.chains.Keys
    && TreeOk(g.root, g.ClusterBytes(), t, AllListings(g, v, t))
  }

  /** Directory `d` lists `items`, going by the volume alone. */
  ghost predicate DirShows(g: Geometry, v: Vol, d: nat, items: seq<Item>)
  {
    VolOk(g, v) && exists s :: IsChain(v.fat, s) && s[0] == d && Shown(g, v, s) == items
  }

  /** The listing is a function of the volume. */
  lemma DirShowsUnique(g: Geometry, v: Vol, d: nat, a: seq<Item>, b: seq<Item>)
    requires DirShows(g, v, d, a) && DirShows(g, v, d, b)
    ensures a == b
  {
    var s :| IsChain(v.fat, s) && s[0] == d && Shown(g, v, s) == a;
    var t :| IsChain(v.fat, t) && t[0] == d && Shown(g, v, t) == b;
    ChainUnique(v.fat, s, t);
  }

  /** `v'` agrees with `v` on table entry and contents of every cluster of `s`. */
  ghost predicate Agree(v: Vol, v': Vol, s: seq<nat>)
  {
    |v'.fat| == |v.fat| && |v'.data| == |v.data| &&
    forall i | 0 <= i < |s| :: s[i] < |v.fat| && s[i] < |v.data| && v'.fat[s[i]] == v.fat[s[i]]
      && v'.data[s[i]] == v.data[s[i]]
  }

  lemma DirShowsFrame(g: Geometry, v: Vol, v': Vol, s: seq<nat>, items: seq<Item>)
    requires VolOk(g, v) && VolOk(g, v') && IsChain(v.fat, s) && Agree(v, v', s) && Shown(g, v, s) == items
    ensures DirShows(g, v', s[0], items)
  {
    hide Listing, Slots;
    ChainFrame(v.fat, v'.fat, s);
    ContentFrame(g, v, v', s);
    assert Shown(g, v', s) == items;
  }

  /** A directory whose chain differs at most in its end mark lists the same. */
  lemma ShownFrame(g: Geometry, v: Vol, v': Vol, s: seq<nat>)
    requires VolOk(g, v) && VolOk(g, v') && InRange(v.fat, s)
    requires forall i | 0 <= i < |s| :: v'.data[s[i]] == v.data[s[i]]
    ensures Shown(g, v', s) == Shown(g, v, s) && SlotsIn(g, v', s) == SlotsIn(g, v, s)
  {
    hide Listing, Slots;
    ContentFrame(g, v, v', s);
  }

  // ------------------------------------------------------------ chain growth

  /** `v'` is `v` after zeroed free clusters `added` were linked behind the chain `s`. */
  ghost predicate Grown(g: Geometry, v: Vol, v': Vol, s: seq<nat>, added: seq<nat>)
  {
    && VolOk(g, v) && VolOk(g, v') && NoDup(added)
    && (forall i | 0 <= i < |added| ::
         2 <= added[i] < |v.fat| && v.fat[added[i]] == 0
         && v'.data[added[i]] == Zeros(g.ClusterBytes()))
    && (|s| + |added| > 0 ==> IsChain(v'.fat, s + added))
    && (forall c | 0 <= c < |v.fat| && c !in added && (s == [] || c != s[|s| - 1]) :: v'.fat[c] == v.fat[c])
    && (forall c | 0 <= c < |v.fat| && c !in added :: v'.data[c] == v.data[c])
  }

  lemma GrownFresh(g: Geometry, v: Vol, v1: Vol, s: seq<nat>, added: seq<nat>, c: nat)
    requires Grown(g, v, v1, s, added) && (s == [] || IsChain(v.fat, s))
    requires 2 <= c < |v.fat| && v1.fat[c] == 0
    ensures c !in s + added && c !in s && c !in added && v.fat[c] == 0 && NoDup(added + [c])
  {
    if c in s + added {
      var i :| 0 <= i < |s + added| && (s + added)[i] == c;
      ChainInUse(v1.fat, s + added, i);
    }
    assert forall x | x in added :: x in s + added;
    assert forall x | x in s :: x in s + added;
  }

  /** The table after `c` was allocated and linked behind `s`. */
  ghost function Appended(fat: seq<nat>, s: seq<nat>, c: nat): seq<nat>
    requires InRange(fat, s) && 2 <= c < |fat|
  {
    if s == [] then fat[c := EOC] else fat[c := EOC][s[|s| - 1] := c]
  }

  lemma AppendedChain(fat: seq<nat>, s: seq<nat>, c: nat)
    requires |fat| <= LINK_LIMIT && 2 <= c < |fat| && c !in s && (s == [] || IsChain(fat, s))
    ensures IsChain(Appended(fat, s, c), s + [c]) && InRange(fat, s)
  {
  }

  lemma GrownStep(g: Geometry, v: Vol, v1: Vol, v2: Vol, s: seq<nat>, added: seq<nat>, c: nat)
    requires Linkable(g) && Grown(g, v, v1, s, added) && (s == [] || IsChain(v.fat, s))
    requires 2 <= c < |v.fat| && v1.fat[c] == 0
    requires v2 == Vol(Appended(v1.fat, s + added, c), v1.data[c := Zeros(g.ClusterBytes())])
    ensures Grown(g, v, v2, s, added + [c])
  {
    hide IsChain, Appended, NoDup;
    GrownFresh(g, v, v1, s, added, c);
    AppendedChain(v1.fat, s + added, c);
    AppendedLength(v1.fat, s + added, c);
    assert s + (added + [c]) == (s + added) + [c];
    forall x | 0 <= x < |v.fat| && x !in added + [c] && (s == [] || x != s[|s| - 1]) ensures v2.fat[x] == v.fat[x] {
      AppendedElsewhere(v1.fat, s, added, c, x);
    }
    forall x | 0 <= x < |v.fat| && x !in added + [c] ensures v2.data[x] == v.data[x] {
      assert x !in added && x != c;
    }
  }

  lemma AppendedLength(fat: seq<nat>, s: seq<nat>, c: nat)
    requires InRange(fat, s) && 2 <= c < |fat|
    ensures |Appended(fat, s, c)| == |fat|
  {
  }

  lemma AppendedElsewhere(fat: seq<nat>, s: seq<nat>, added: seq<nat>, c: nat, x: nat)
    requires InRange(fat, s + added) && 2 <= c < |fat| && x < |fat| && x !in added + [c] && (s == [] || x != s[|s| - 1])
    ensures x !in added && x != c && Appended(fat, s + added, c)[x] == fat[x]
  {
    assert forall y | y in added :: y in added + [c];
    assert c in added + [c];
  }

  // -------------------------------------------------------------- free space

  ghost function FreeSet(fat: seq<nat>): set<nat>
  {
    set c | 0 <= c < |fat| && 2 <= c && fat[c] == 0
  }

  lemma GrownUsed(g: Geometry, v: Vol, v': Vol, s: seq<nat>, added: seq<nat>, c: nat)
    requires Grown(g, v, v', s, added) && (s == [] || IsChain(v.fat, s)) && 0 <= c < |v.fat|
    ensures v.fat[c] == 0 <==> v'.fat[c] == 0 || c in added
    ensures c in added ==> v'.fat[c] != 0
  {
    hide NextOf;
    if c in added {
      var i :| 0 <= i < |added| && added[i] == c;
      assert (s + added)[|s| + i] == c;
      ChainInUse(v'.fat, s + added, |s| + i);
    } else if s != [] && c == s[|s| - 1] {
      ChainInUse(v.fat, s, |s| - 1);
      assert (s + added)[|s| - 1] == c;
      ChainInUse(v'.fat, s + added, |s| - 1);
    }
  }

  /** Growing by one cluster uses up one free cluster. */
  lemma GrownFree(g: Geometry, v: Vol, v': Vol, s: seq<nat>, added: seq<nat>)
    requires Grown(g, v, v', s, added) && (s == [] || IsChain(v.fat, s))
    ensures |FreeSet(v.fat)| == |FreeSet(v'.fat)| + |added|
  {
    hide IsChain;
    NoDupSize(added);
    forall c ensures c in FreeSet(v.fat) <==> c in FreeSet(v'.fat) || c in Elements(added) {
      assert c in Elements(added) <==> c in added;
      if 0 <= c < |v.fat| {
        GrownUsed(g, v, v', s, added, c);
      }
    }
    assert FreeSet(v.fat) == FreeSet(v'.fat) + Elements(added);
    forall c | c in Elements(added) ensures c !in FreeSet(v'.fat) {
      GrownUsed(g, v, v', s, added, c);
    }
  }

  // ---------------------------------------------- a directory being extended

  /** First slot that starts with zero, or the slot count. */
  function EndAt(slots: seq<Slot>, from: nat): (r: nat)
    requires from <= |slots|
    ensures from <= r <= |slots|
    ensures forall i | from <= i < r :: slots[i][0] != 0
    ensures r < |slots| ==> slots[r][0] == 0
    decreases |slots| - from
  {
    if from == |slots| || slots[from][0] == 0 then from else EndAt(slots, from + 1)
  }

  lemma {:induction false} DeletedRun(slots: seq<Slot>, from: nat, to: nat)
    requires from <= to <= |slots| && !Run(slots, from).ended
    requires forall i | from <= i < to :: slots[i][0] == DELETED
    ensures Run(slots, to).out == Run(slots, from).out && !Run(slots, to).ended
  {
    if from < to {
      DeletedRun(slots, from, to - 1);
    }
  }

  lemma EndedAt(slots: seq<Slot>, n: nat)
    requires n < |slots| && slots[n][0] == 0 && !Run(slots, n).ended
    ensures Listing(slots) == Run(slots, n).out
  {
    hide Step;
    EndStep(slots, n);
    RunEnded(slots, n + 1, |slots|);
  }

  lemma EndStep(slots: seq<Slot>, n: nat)
    requires n < |slots| && slots[n][0] == 0
    ensures Run(slots, n + 1) == Run(slots, n).(ended := true)
  {
  }

  lemma NotEnded(slots: seq<Slot>, n: nat)
    requires n <= |slots| && forall i | 0 <= i < n :: slots[i][0] != 0
    ensures !Run(slots, n).ended
  {
  }

  /** Behind its end marker the directory holds no record that would list if the marker were gone. */
  ghost predicate QuietTail(slots: seq<Slot>)
  {
    forall i | EndAt(slots, 0) <= i < |slots| :: !IsShort(slots[i])
  }

  lemma {:induction false} QuietRun(slots: seq<Slot>, e: nat, n: nat)
    requires e <= n <= |slots| && forall i | e <= i < n :: !IsShort(slots[i])
    ensures Run(slots, n).out == Run(slots, e).out
  {
    if e < n {
      QuietRun(slots, e, n - 1);
    }
  }

  /** Deleting an unused tail slot by slot never changes the listing. */
  lemma TailDeleted(slots: seq<Slot>, j: nat)
    requires QuietTail(slots) && EndAt(slots, 0) <= j <= |slots|
    ensures Listing(Tombstoned(slots, EndAt(slots, 0), j)) == Listing(slots)
  {
    hide Step;
    var e := EndAt(slots, 0);
    var r := Tombstoned(slots, e, j);
    RunPrefix(r, slots, e);
    QuietRun(r, e, |r|);
    OldListing(slots);
  }

  /** With the tail deleted up to a record that would list, that record does list. */
  lemma TailShows(slots: seq<Slot>, i: nat)
    requires EndAt(slots, 0) <= i < |slots| && IsShort(slots[i])
    ensures var r := Tombstoned(slots, EndAt(slots, 0), i);
            Listing(slots) < Listing(r) && Listing(r)[|Listing(slots)|].slot == i
  {
    hide Step, EndAt;
    var r := Tombstoned(slots, EndAt(slots, 0), i);
    TailRun(slots, [], i);
    assert r + [] == r;
    ListsStep(r, i);
    RunGrows(r, i + 1, |r|);
  }

  /** A directory whose listing changes while its tail is deleted: the end marker, then a record. */
  lemma LoudTail(short: Slot)
    requires IsShort(short)
    ensures var slots: seq<Slot> := [Zeros(SLOT_SIZE), short];
            Listing(slots) == [] && Listing(Tombstoned(slots, 0, 1)) != [] && Listing(Tombstoned(slots, 0, 2)) == []
  {
    var slots: seq<Slot> := [Zeros(SLOT_SIZE), short];
    assert EndAt(slots, 0) == 0;
    OldListing(slots);
    TailShows(slots, 1);
    WholeTailDeleted(slots);
  }

  /** Deleting the whole tail never changes the listing, whatever stood there. */
  lemma WholeTailDeleted(slots: seq<Slot>)
    ensures Listing(Tombstoned(slots, EndAt(slots, 0), |slots|)) == Listing(slots)
  {
    hide Step;
    var r := Tombstoned(slots, EndAt(slots, 0), |slots|);
    TailRun(slots, [], |slots|);
    assert r + [] == r;
  }

  lemma OldListing(slots: seq<Slot>)
    ensures Listing(slots) == Run(slots, EndAt(slots, 0)).out
  {
    hide Step;
    var e := EndAt(slots, 0);
    NotEnded(slots, e);
    if e < |slots| {
      EndedAt(slots, e);
    }
  }

  /** The walk over the deleted tail arrives, still running, with the old listing. */
  lemma TailRun(slots: seq<Slot>, more: seq<Slot>, j: nat)
    requires EndAt(slots, 0) <= j <= |slots|
    ensures var r := Tombstoned(slots, EndAt(slots, 0), j) + more;
            !Run(r, j).ended && Run(r, j).out == Listing(slots)
  {
    hide Step;
    var e := EndAt(slots, 0);
    var r := Tombstoned(slots, e, j) + more;
    RunPrefix(r, slots, e);
    NotEnded(slots, e);
    DeletedRun(r, e, j);
    OldListing(slots);
  }

  /** The directory with its tail deleted and the first `i` of the new slots written. */
  ghost function Written(slots: seq<Slot>, recs: seq<Slot>, i: nat, room: nat): (r: seq<Slot>)
    requires i <= |recs| <= room
    ensures |r| == |slots| + room
  {
    Tombstoned(slots, EndAt(slots, 0), |slots|) + (recs[..i] + ZeroSlots(room - i))
  }

  /** A new entry: long-name records for `units` followed by the short record. */
  ghost predicate EntrySlots(recs: seq<Slot>, units: seq<nat>, short: seq<Byte>)
  {
    && |recs| > 0 && Acceptable(units) && IsShort(recs[|recs| - 1])
    && recs[|recs| - 1][..11] == short && AreRecords(recs[..|recs| - 1], units, short)
  }

  /** The item that the new entry lists as. */
  ghost function EntryItem(at: nat, recs: seq<Slot>, units: seq<nat>): Item
    requires |recs| > 0
  {
    var e := recs[|recs| - 1];
    Item(at + |recs| - 1, ListedName(units, e), e[11] / 16 % 2 == 1, U32(e, 28), EntryFirst(e))
  }

  /** The records `recs` stand in the directory `s` from slot `base` on. */
  ghost predicate Recorded(g: Geometry, v: Vol, s: seq<nat>, base: nat, recs: seq<Slot>)
  {
    base + |recs| <= |SlotsIn(g, v, s)| && SlotsIn(g, v, s)[base..base + |recs|] == recs
  }

  lemma WrittenRecorded(g: Geometry, v: Vol, s: seq<nat>, before: seq<Slot>, recs: seq<Slot>, room: nat)
    requires VolOk(g, v) && InRange(v.fat, s) && |recs| < room
    requires Slots(g, v, s) == Written(before, recs, |recs|, room)
    ensures Recorded(g, v, s, |before|, recs)
  {
    hide Slots, EndAt, Tombstoned;
  }

  lemma WrittenAt(slots: seq<Slot>, recs: seq<Slot>, i: nat, room: nat)
    requires i <= |recs| < room
    ensures var r := Written(slots, recs, i, room);
            && (forall x | 0 <= x < i :: r[|slots| + x] == recs[x]) && r[|slots| + i][0] == 0
  {
  }

  lemma WrittenRun(slots: seq<Slot>, recs: seq<Slot>, i: nat, room: nat)
    requires i <= |recs| < room
    ensures var r := Written(slots, recs, i, room); !Run(r, |slots|).ended && Run(r, |slots|).out == Listing(slots)
  {
    hide Step, EndAt, Tombstoned;
    TailRun(slots, recs[..i] + ZeroSlots(room - i), |slots|);
  }

  /** Before its short record is written, a new entry does not show. */
  lemma PartWritten(slots: seq<Slot>, recs: seq<Slot>, units: seq<nat>, short: seq<Byte>, i: nat, room: nat)
    requires EntrySlots(recs, units, short) && i < |recs| < room
    ensures Listing(Written(slots, recs, i, room)) == Listing(slots)
  {
    hide Step, Filled, Written, Acceptable, AreRecords, IsShort;
    var r := Written(slots, recs, i, room);
    WrittenAt(slots, recs, i, room);
    WrittenRun(slots, recs, i, room);
    RecordsRun(r, |slots|, recs[..|recs| - 1], units, short, i);
    EndedAt(r, |slots| + i);
  }

  /** Once it is, the listing is the old one plus exactly the new entry. */
  lemma FullyWritten(slots: seq<Slot>, recs: seq<Slot>, units: seq<nat>, short: seq<Byte>, room: nat)
    requires EntrySlots(recs, units, short) && |recs| < room
    ensures Listing(Written(slots, recs, |recs|, room)) == Listing(slots) + [EntryItem(|slots|, recs, units)]
  {
    hide Step, Filled, EntryName, ListedName, Written, Acceptable, AreRecords, IsShort;
    var r := Written(slots, recs, |recs|, room);
    WrittenAt(slots, recs, |recs|, room);
    WrittenRun(slots, recs, |recs|, room);
    LongNameRoundTrip(r, |slots|, recs[..|recs| - 1], units, short);
    NewRunning(r, |slots| + |recs| - 1);
    EndedAt(r, |slots| + |recs|);
  }

  lemma NewRunning(slots: seq<Slot>, n: nat)
    requires n < |slots| && Lists(slots, n)
    ensures !Run(slots, n + 1).ended
  {
  }

  // ------------------------------------------------------------- searching

  /** Where an entry's short record stands, and what it says. */
  datatype Location = Location(cluster: nat, offset: nat, first: nat, size: nat, isDir: bool)

  function Lower(u: nat): nat { if 0x41 <= u <= 0x5a then u + 0x20 else u }

  /** Names compare without regard to the case of ASCII letters. */
  predicate SameName(a: seq<nat>, b: seq<nat>)
  {
    |a| == |b| && forall i | 0 <= i < |a| :: Lower(a[i]) == Lower(b[i])
  }

  /** Position of the first item named `name` at or after `from`, or the number of items. */
  function FindItem(items: seq<Item>, name: seq<nat>, from: nat): (r: nat)
    requires from <= |items|
    ensures from <= r <= |items|
    ensures forall p | from <= p < r :: !SameName(items[p].name, name)
    ensures r < |items| ==> SameName(items[r].name, name)
    decreases |items| - from
  {
    if from == |items| || SameName(items[from].name, name) then from else FindItem(items, name, from + 1)
  }

  ghost predicate NoMatch(items: seq<Item>, name: seq<nat>)
  {
    forall p | 0 <= p < |items| :: !SameName(items[p].name, name)
  }

  lemma FindFirst(items: seq<Item>, name: seq<nat>, p: nat)
    requires p <= |items| && NoMatch(items[..p], name) && (p < |items| ==> SameName(items[p].name, name))
    ensures FindItem(items, name, 0) == p
  {
  }

  /** The location of a listed item in the chain `s` of its directory. */
  ghost function Place(g: Geometry, s: seq<nat>, it: Item): Location
    requires g.Valid() && it.slot < Row(|s|, SlotsPerCluster(g))
  {
    var k := SlotsPerCluster(g);
    PlaceBound(g, |s|, it.slot);
    Location(s[RowOf(it.slot, k)], ColumnOf(it.slot, k) * SLOT_SIZE, it.first, it.size, it.isDir)
  }

  lemma PlaceBound(g: Geometry, n: nat, slot: nat)
    requires g.Valid() && slot < Row(n, SlotsPerCluster(g))
    ensures RowOf(slot, SlotsPerCluster(g)) < n
  {
    var q := RowOf(slot, SlotsPerCluster(g));
    if n <= q {
      RowMonotoneEq(n, q, SlotsPerCluster(g));
    }
  }

  lemma PlaceAt(g: Geometry, s: seq<nat>, it: Item, i: nat, j: nat)
    requires g.Valid() && i < |s| && j < SlotsPerCluster(g) && it.slot == Row(i, SlotsPerCluster(g)) + j
    ensures it.slot < Row(|s|, SlotsPerCluster(g))
    ensures Place(g, s, it) == Location(s[i], j * SLOT_SIZE, it.first, it.size, it.isDir)
  {
    var k := SlotsPerCluster(g);
    RowMonotone(i, |s|, k);
    RowsDistinct(i, j, RowOf(it.slot, k), ColumnOf(it.slot, k), k);
  }

  /** Slot `j` of the `i`-th cluster, read straight from the cluster. */
  lemma SlotRead(g: Geometry, v: Vol, s: seq<nat>, i: nat, j: nat)
    requires VolOk(g, v) && InRange(v.fat, s) && i < |s| && j < SlotsPerCluster(g)
    ensures j * SLOT_SIZE + SLOT_SIZE <= g.ClusterBytes()
    ensures Row(i, SlotsPerCluster(g)) + j < |Slots(g, v, s)|
    ensures Slots(g, v, s)[Row(i, SlotsPerCluster(g)) + j] == v.data[s[i]][j * SLOT_SIZE..j * SLOT_SIZE + SLOT_SIZE]
  {
    hide Flatten;
    SlotPlace(g, |s|, i, j);
    var n := Row(i, SlotsPerCluster(g)) + j;
    var a, b := Slots(g, v, s)[n], v.data[s[i]][j * SLOT_SIZE..j * SLOT_SIZE + SLOT_SIZE];
    RowScale(|s|, SlotsPerCluster(g));
    forall o | 0 <= o < SLOT_SIZE ensures a[o] == b[o] {
      FlattenAt(v.data, s, g.ClusterBytes(), i, j * SLOT_SIZE + o);
    }
  }

  /** The items that are not dot entries. */
  function NonDot(items: seq<Item>): (r: seq<Item>)
    ensures r == [] <==> OnlyDots(items)
  {
    if items == [] then []
    else
      var init := NonDot(items[..|items| - 1]);
      var it := items[|items| - 1];
      assert OnlyDots(items) <==> OnlyDots(items[..|items| - 1]) && IsDot(it.name);
      if IsDot(it.name) then init else init + [it]
  }

  /** One step of the walk either lists nothing new or appends the entry of its slot. */
  lemma StepShape(st: Scan, e: Slot, n: nat)
    requires |st.lfn| == LFN_UNITS && !st.ended
    ensures var r := Step(st, e, n);
            && (r.ended <==> e[0] == 0)
            && (r.out == st.out || (|r.out| == |st.out| + 1 && r.out[..|st.out|] == st.out
                                    && r.out[|st.out|].slot == n && r.out[|st.out|].first == EntryFirst(e)
                                    && r.out[|st.out|].size == U32(e, 28) && r.out[|st.out|].isDir
                                       == (e[11] / 16 % 2 == 1)))
  {
  }

  // --------------------------------------------- claiming clusters to append

  /** The link of the `i`-th claimed cluster when the first `k` have been linked. */
  function LinkAt(added: seq<nat>, i: nat, k: nat): nat
    requires i < |added|
  {
    if i < k && i + 1 < |added| then added[i + 1] else EOC
  }

  /** `v'` is `v` after the free clusters `added` were claimed and zeroed; the first `k` of them
      already link to their successor, the others end. */
  ghost predicate Claimed(g: Geometry, v: Vol, v': Vol, added: seq<nat>, k: nat)
  {
    && VolOk(g, v) && VolOk(g, v') && NoDup(added)
    && (forall i | 0 <= i < |added| ::
         2 <= added[i] < |v.fat| && v.fat[added[i]] == 0
         && v'.data[added[i]] == Zeros(g.ClusterBytes()))
    && (forall i | 0 <= i < |added| :: v'.fat[added[i]] == LinkAt(added, i, k))
    && (forall c | 0 <= c < |v.fat| && c !in added :: v'.fat[c] == v.fat[c] && v'.data[c] == v.data[c])
  }

  lemma ClaimedMore(g: Geometry, v: Vol, v1: Vol, v2: Vol, added: seq<nat>, c: nat)
    requires Claimed(g, v, v1, added, 0) && 2 <= c < |v.fat| && v1.fat[c] == 0
    requires v2 == Vol(v1.fat[c := EOC], v1.data[c := Zeros(g.ClusterBytes())])
    ensures Claimed(g, v, v2, added + [c], 0)
  {
  }

  lemma ClaimedLink(g: Geometry, v: Vol, v1: Vol, v2: Vol, added: seq<nat>, k: nat)
    requires Claimed(g, v, v1, added, k) && k + 1 < |added|
    requires v2 == v1.(fat := v1.fat[added[k] := added[k + 1]])
    ensures Claimed(g, v, v2, added, k + 1)
  {
    forall i | 0 <= i < |added|
      ensures v2.fat[added[i]] == LinkAt(added, i, k + 1)
    {
      if i != k {
        assert added[i] != added[k];
      }
    }
  }

  /** A used chain is out of reach of the claimed clusters. */
  lemma ClaimedApart(g: Geometry, v: Vol, v': Vol, added: seq<nat>, k: nat, s: seq<nat>)
    requires Claimed(g, v, v', added, k) && IsChain(v.fat, s)
    ensures Agree(v, v', s) && forall i | 0 <= i < |s| :: s[i] !in added
  {
    forall i | 0 <= i < |s| ensures s[i] !in added {
      ChainInUse(v.fat, s, i);
    }
  }

  /** Hanging the claimed clusters behind `s` yields one chain. */
  lemma ClaimedChain(g: Geometry, v: Vol, v1: Vol, v2: Vol, s: seq<nat>, added: seq<nat>)
    requires Linkable(g) && Claimed(g, v, v1, added, |added|) && IsChain(v.fat, s) && |added| > 0
    requires v2 == v1.(fat := v1.fat[s[|s| - 1] := added[0]])
    ensures Grown(g, v, v2, s, added)
  {
    hide NextOf, Claimed, Grown;
    ClaimedApart(g, v, v1, added, |added|, s);
    ClaimedLinks(g, v, v1, added);
    ClaimedSizes(g, v, v1, added, |added|);
    ChainFrame(v.fat, v1.fat, s);
    RedirectEnd(v1.fat, s, added[0]);
    assert s[|s| - 1] !in added;
    forall i | 0 <= i < |added| ensures v2.fat[added[i]] == v1.fat[added[i]] {
    }
    ChainFrame(v1.fat, v2.fat, added);
    JoinChains(v2.fat, s, added);
    ClaimedGrown(g, v, v1, v2, s, added);
  }

  lemma ClaimedSizes(g: Geometry, v: Vol, v1: Vol, added: seq<nat>, k: nat)
    requires Claimed(g, v, v1, added, k)
    ensures |v1.fat| == |v.fat| && VolOk(g, v) && VolOk(g, v1)
  {
  }

  lemma ClaimedGrown(g: Geometry, v: Vol, v1: Vol, v2: Vol, s: seq<nat>, added: seq<nat>)
    requires Claimed(g, v, v1, added, |added|) && |s| > 0 && |added| > 0 && s[|s| - 1] < |v1.fat|
    requires s[|s| - 1] !in added && added[0] < g.count + 2 && Linkable(g) && g.Valid()
    requires v2 == v1.(fat := v1.fat[s[|s| - 1] := added[0]]) && IsChain(v2.fat, s + added)
    ensures Grown(g, v, v2, s, added)
  {
    hide IsChain, LinkAt;
  }

  lemma ClaimedLinks(g: Geometry, v: Vol, v1: Vol, added: seq<nat>)
    requires Linkable(g) && Claimed(g, v, v1, added, |added|) && |added| > 0
    ensures IsChain(v1.fat, added)
  {
    forall i | 0 <= i < |added| - 1 ensures NextOf(v1.fat, added[i]) == Link(added[i + 1]) {
      assert v1.fat[added[i]] == LinkAt(added, i, |added|);
    }
    assert v1.fat[added[|added| - 1]] == LinkAt(added, |added| - 1, |added|);
  }

  // --------------------------------------------------- writing the new slots

  lemma TombstoneNext(slots: seq<Slot>, e: nat, n: nat)
    requires e <= n < |slots|
    ensures Tombstoned(slots, e, n)[n := Splice(slots[n], 0, [DELETED])] == Tombstoned(slots, e, n + 1)
  {
    assert Splice(slots[n], 0, [DELETED]) == Deleted(slots[n]);
  }

  lemma WrittenNext(slots: seq<Slot>, recs: seq<Slot>, i: nat, room: nat)
    requires i < |recs| <= room
    ensures |slots| + i < |Written(slots, recs, i, room)|
    ensures Written(slots, recs, i, room)[|slots| + i := Splice(Written(slots, recs, i, room)[|slots| + i], 0, recs[i])]
            == Written(slots, recs, i + 1, room)
  {
    assert Splice(Zeros(SLOT_SIZE), 0, recs[i]) == recs[i];
  }

  lemma WrittenNone(slots: seq<Slot>, recs: seq<Slot>, room: nat)
    requires |recs| <= room
    ensures Tombstoned(slots, EndAt(slots, 0), |slots|) + ZeroSlots(room) == Written(slots, recs, 0, room)
  {
  }

  /** Slot `i` behind the first `n` clusters, as found from its byte offset. */
  lemma NewSlotPlace(g: Geometry, n: nat, i: nat, more: nat)
    requires g.Valid() && i < Row(more, SlotsPerCluster(g))
    ensures RowOf(i * SLOT_SIZE, g.ClusterBytes()) < more
    ensures RowOf(Row(n, SlotsPerCluster(g)) + i, SlotsPerCluster(g)) == n + RowOf(i * SLOT_SIZE, g.ClusterBytes())
    ensures ColumnOf(Row(n, SlotsPerCluster(g)) + i, SlotsPerCluster(g)) * SLOT_SIZE
            == ColumnOf(i * SLOT_SIZE, g.ClusterBytes())
    ensures Row(n, SlotsPerCluster(g)) + i < Row(n + more, SlotsPerCluster(g))
  {
    hide RowOf, ColumnOf;
    var k, cb := SlotsPerCluster(g), g.ClusterBytes();
    var q, r := RowOf(i, k), ColumnOf(i, k);
    RowScale(q, k);
    RowsDistinct(q, r * SLOT_SIZE, RowOf(i * SLOT_SIZE, cb), ColumnOf(i * SLOT_SIZE, cb), cb);
    RowSum(n, q, k);
    RowsDistinct(n + q, r, RowOf(Row(n, k) + i, k), ColumnOf(Row(n, k) + i, k), k);
    RowSum(n, more, k);
    if more <= q {
      RowMonotoneEq(more, q, k);
    }
  }
}
