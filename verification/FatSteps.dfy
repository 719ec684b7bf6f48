/** What the driver's single steps do to a volume: searching, deleting an unused tail, claiming and
    linking clusters, writing a new entry, and putting a file write together. */
module FatSteps {
  import opened Bytes
  import opened Wrappers
  import opened Rows
  import opened FatChains
  import opened FatLayout
  import opened FatContent
  import opened FatDirectory
  import opened FatNames
  import opened FatTree
  import opened FatVolume
  import opened FatFsck

  /** The writes between two traces left the volume as `a` or as `b`. */
  ghost predicate StepsAmong(before: seq<Vol>, after: seq<Vol>, a: Vol, b: Vol)
  {
    before <= after && forall i | |before| <= i < |after| :: after[i] == a || after[i] == b
  }

  /** `v'` differs from `v` at most in cluster `c`. */
  ghost predicate AgreeOff(g: Geometry, v: Vol, v': Vol, c: nat)
  {
    && VolOk(g, v') && |v.fat| == |v'.fat| && |v.data| == |v'.data|
    && (forall x | 0 <= x < |v.fat| && x != c :: v'.fat[x] == v.fat[x])
    && (forall x | 0 <= x < |v.data| && x != c :: v'.data[x] == v.data[x])
  }

  /** The writes between two traces touched nothing but cluster `c`. */
  ghost predicate StepsOff(g: Geometry, before: seq<Vol>, after: seq<Vol>, v: Vol, c: nat)
  {
    before <= after && forall i | |before| <= i < |after| :: AgreeOff(g, v, after[i], c)
  }

  lemma ModOnce(x: nat, n: nat)
    requires 0 < n && x < n + n
    ensures x % n == if x < n then x else x - n
  {
  }

  /** A valid cluster number, as near to `hint` as can be. */
  function Clamp(hint: nat, count: nat): nat
  {
    if hint < 2 then 2 else if hint > count + 1 then count + 1 else hint
  }

  function Wrap(x: nat, n: nat): (r: nat)
    requires 0 < n && x < n + n
    ensures r == if x < n then x else x - n
  {
    ModOnce(x, n);
    x % n
  }

  lemma SmallMod(x: nat, n: nat)
    requires x < n
    ensures x % n == x && x / n == 0
  {
  }

  // ----------------------------------------------------- about the new entry

  /** Every write in between left the directory listing `items`, or `items` and `it`. */
  ghost predicate EntryTrace(g: Geometry, d: nat, items: seq<Item>, it: Item, before: seq<Vol>, after: seq<Vol>)
  {
    && before <= after
    && forall k | |before| <= k < |after| :: DirShows(g, after[k], d, items) || DirShows(g, after[k], d, items + [it])
  }

  lemma EntryTraceStart(g: Geometry, d: nat, items: seq<Item>, it: Item, t: seq<Vol>)
    ensures EntryTrace(g, d, items, it, t, t)
  {
  }

  lemma EntryTraceNext(g: Geometry, d: nat, items: seq<Item>, it: Item, t0: seq<Vol>, t1: seq<Vol>, v: Vol)
    requires EntryTrace(g, d, items, it, t0, t1)
    requires DirShows(g, v, d, items) || DirShows(g, v, d, items + [it])
    ensures EntryTrace(g, d, items, it, t0, t1 + [v])
  {
  }

  lemma EntryTracePrefix(g: Geometry, d: nat, items: seq<Item>, it: Item, t0: seq<Vol>, t1: seq<Vol>, t2: seq<Vol>)
    requires t0 <= t1 <= t2 && EntryTrace(g, d, items, it, t0, t2)
    ensures EntryTrace(g, d, items, it, t0, t1)
  {
  }

  lemma TraceQuiet(g: Geometry, d: nat, items: seq<Item>, it: Item, quiet: bool, t0: seq<Vol>, t1: seq<Vol>,
                   t2: seq<Vol>)
    requires t0 <= t1 <= t2 && (EntryTrace(g, d, items, it, t0, t1) ==> quiet)
    ensures EntryTrace(g, d, items, it, t0, t2) ==> quiet
  {
    hide EntryTrace;
    if EntryTrace(g, d, items, it, t0, t2) {
      EntryTracePrefix(g, d, items, it, t0, t1, t2);
    }
  }

  lemma EntryTraceJoin(g: Geometry, d: nat, items: seq<Item>, it: Item, quiet: bool, t0: seq<Vol>, t1: seq<Vol>,
                       t2: seq<Vol>)
    requires quiet ==> EntryTrace(g, d, items, it, t0, t1)
    requires EntryTrace(g, d, items, it, t1, t2)
    ensures (quiet ==> EntryTrace(g, d, items, it, t0, t2)) && t1 <= t2
  {
  }

  lemma RecordShows(g: Geometry, v: Vol, s: seq<nat>, all: seq<nat>, before: seq<Slot>, recs: seq<Slot>,
                    units: seq<nat>,
                    short: seq<Byte>, i: nat, room: nat)
    requires VolOk(g, v) && s != [] && IsChain(v.fat, all) && all[0] == s[0]
    requires EntrySlots(recs, units, short) && i <= |recs| < room && Slots(g, v, all) == Written(before, recs, i, room)
    ensures DirShows(g, v, s[0], Listing(before))
            || DirShows(g, v, s[0], Listing(before) + [EntryItem(|before|, recs, units)])
  {
    hide Slots, Written, AreRecords, Acceptable, IsShort, Listing;
    if i < |recs| {
      PartWritten(before, recs, units, short, i, room);
      assert Shown(g, v, all) == Listing(before);
    } else {
      FullyWritten(before, recs, units, short, room);
      assert Shown(g, v, all) == Listing(before) + [EntryItem(|before|, recs, units)];
    }
  }

  /** `v` is `v0` after the entry `it` was added to the directory `s`, which grew by `added`. */
  ghost predicate DirGrown(g: Geometry, v0: Vol, v: Vol, s: seq<nat>, added: seq<nat>, it: Item)
    requires VolOk(g, v0) && IsChain(v0.fat, s)
  {
    && VolOk(g, v) && IsChain(v.fat, s + added)
    && (forall i | 0 <= i < |added| :: 2 <= added[i] < |v0.fat| && v0.fat[added[i]] == 0)
    && (forall c | 0 <= c < |v0.fat| && c !in s + added :: v.fat[c] == v0.fat[c] && v.data[c] == v0.data[c])
    && Shown(g, v, s + added) == Shown(g, v0, s) + [it]
  }

  /** `v` is `v0` up to the deleted tail of the directory `s` and the contents of free clusters. */
  ghost predicate DirKept(g: Geometry, v0: Vol, v: Vol, s: seq<nat>)
    requires VolOk(g, v0) && IsChain(v0.fat, s)
  {
    && VolOk(g, v) && v.fat == v0.fat
    && (forall c | 0 <= c < |v0.fat| && c !in s && v0.fat[c] != 0 :: v.data[c] == v0.data[c])
    && Shown(g, v, s) == Shown(g, v0, s)
  }

  /** Once the whole tail is deleted the listing is the old one. */
  lemma TombedListing(g: Geometry, v0: Vol, v1: Vol, s: seq<nat>)
    requires VolOk(g, v0) && IsChain(v0.fat, s) && Tombing(g, v0, v1, s, Row(|s|, SlotsPerCluster(g)))
    ensures Slots(g, v1, s) == Tombstoned(Slots(g, v0, s), EndAt(Slots(g, v0, s), 0), |Slots(g, v0, s)|)
    ensures Shown(g, v1, s) == Shown(g, v0, s)
  {
    hide Slots, EndAt, Listing;
    var before := Slots(g, v0, s);
    assert Tombstoned(before, |before|, |before|) == before;
    WholeTailDeleted(before);
  }

  lemma TombedShows(g: Geometry, v0: Vol, v1: Vol, s: seq<nat>, t0: seq<Vol>, t1: seq<Vol>, it: Item)
    requires VolOk(g, v0) && IsChain(v0.fat, s) && Tombing(g, v0, v1, s, Row(|s|, SlotsPerCluster(g)))
    requires QuietTrace(g, v0, s, it, Row(|s|, SlotsPerCluster(g)), t0, t1)
    ensures VolOk(g, v1) && v1.fat == v0.fat && Shown(g, v1, s) == Shown(g, v0, s) && t0 <= t1
    ensures QuietTail(Slots(g, v0, s)) <==> EntryTrace(g, s[0], Shown(g, v0, s), it, t0, t1)
  {
    hide Slots, Shown, DirShows, IsShort, EndAt;
    TombedListing(g, v0, v1, s);
  }

  lemma NeededRoom(g: Geometry, n: nat, needed: nat)
    requires g.Valid() && (n + 1) * SLOT_SIZE <= Row(needed, g.ClusterBytes())
    ensures needed > 0 && n < Row(needed, SlotsPerCluster(g))
  {
    RowScale(needed, SlotsPerCluster(g));
  }

  lemma AgreeShows(g: Geometry, v1: Vol, s: seq<nat>, items: seq<Item>, it: Item, t0: seq<Vol>, t1: seq<Vol>,
                   t2: seq<Vol>)
    requires VolOk(g, v1) && IsChain(v1.fat, s) && Shown(g, v1, s) == items && AgreeTrace(g, v1, s, t1, t2) && t0 <= t1
    ensures EntryTrace(g, s[0], items, it, t0, t1) ==> EntryTrace(g, s[0], items, it, t0, t2)
    ensures t0 <= t2 && t1 <= t2
  {
    hide Shown, DirShows, IsPath;
    forall k | |t1| <= k < |t2| ensures DirShows(g, t2[k], s[0], items) {
      DirShowsFrame(g, v1, t2[k], s, items);
    }
    if EntryTrace(g, s[0], items, it, t0, t1) {
      forall k | |t0| <= k < |t2| ensures DirShows(g, t2[k], s[0], items) || DirShows(g, t2[k], s[0], items + [it]) {
        if k < |t1| {
          assert t2[k] == t1[k];
        }
      }
    }
  }

  lemma KeptAfterClaim(g: Geometry, v0: Vol, v1: Vol, v2: Vol, s: seq<nat>)
    requires VolOk(g, v0) && IsChain(v0.fat, s) && Tombing(g, v0, v1, s, Row(|s|, SlotsPerCluster(g)))
    requires VolOk(g, v2) && v2.fat == v1.fat
    requires forall c | 0 <= c < g.count + 2 && v1.fat[c] != 0 :: v2.data[c] == v1.data[c]
    ensures DirKept(g, v0, v2, s)
  {
    hide Slots, Listing;
    TombedListing(g, v0, v1, s);
    forall i | 0 <= i < |s| ensures v2.data[s[i]] == v1.data[s[i]] {
      ChainInUse(v0.fat, s, i);
    }
    ShownFrame(g, v1, v2, s);
  }

  /** Hanging the zeroed clusters behind the directory changes neither listing. */
  lemma HungShows(g: Geometry, v0: Vol, v1: Vol, v3: Vol, v4: Vol, s: seq<nat>, added: seq<nat>, recs: seq<Slot>,
                  it: Item,
                  t0: seq<Vol>, t3: seq<Vol>, t4: seq<Vol>)
    requires VolOk(g, v0) && IsChain(v0.fat, s) && Tombing(g, v0, v1, s, Row(|s|, SlotsPerCluster(g)))
    requires Claimed(g, v1, v3, added, |added|) && Grown(g, v1, v4, s, added) && StepsAmong(t3, t4, v3, v4)
    requires |recs| < Row(|added|, SlotsPerCluster(g)) && t0 <= t3 && |added| > 0
    ensures IsChain(v4.fat, s + added)
    ensures Slots(g, v4, s + added) == Written(Slots(g, v0, s), recs, 0, Row(|added|, SlotsPerCluster(g)))
    ensures EntryTrace(g, s[0], Shown(g, v0, s), it, t0, t3) ==> EntryTrace(g, s[0], Shown(g, v0, s), it, t0, t4)
    ensures t3 <= t4
  {
    hide Slots, Listing, EndAt, Tombstoned, NextOf, Written, Shown, DirShows, EntryTrace;
    TombedListing(g, v0, v1, s);
    HungSlots(g, v1, v4, s, added);
    WrittenNone(Slots(g, v0, s), recs, Row(|added|, SlotsPerCluster(g)));
    HungListing(g, v0, v4, s, added, recs);
    ClaimedApart(g, v1, v3, added, |added|, s);
    ClaimedOk(g, v1, v3, added, |added|);
    DirShowsFrame(g, v1, v3, s, Shown(g, v0, s));
    AmongShows(g, v3, v4, s[0], Shown(g, v0, s), it, t0, t3, t4);
  }

  lemma HungSlots(g: Geometry, v1: Vol, v4: Vol, s: seq<nat>, added: seq<nat>)
    requires Grown(g, v1, v4, s, added) && IsChain(v1.fat, s)
    ensures InRange(v4.fat, s + added)
    ensures Slots(g, v4, s + added) == Slots(g, v1, s) + ZeroSlots(Row(|added|, SlotsPerCluster(g)))
  {
    hide Slots, NextOf;
    forall i | 0 <= i < |s| ensures v4.data[s[i]] == v1.data[s[i]] {
      ChainInUse(v1.fat, s, i);
    }
    ContentFrame(g, v1, v4, s);
    SlotsExtend(g, v4, s, added);
  }

  lemma HungListing(g: Geometry, v0: Vol, v4: Vol, s: seq<nat>, added: seq<nat>, recs: seq<Slot>)
    requires VolOk(g, v0) && IsChain(v0.fat, s) && VolOk(g, v4) && IsChain(v4.fat, s + added) && |added| > 0
    requires |recs| < Row(|added|, SlotsPerCluster(g))
    requires Slots(g, v4, s + added) == Written(Slots(g, v0, s), recs, 0, Row(|added|, SlotsPerCluster(g)))
    ensures DirShows(g, v4, s[0], Shown(g, v0, s))
  {
    hide Slots, Step, EndAt;
    var before, r := Slots(g, v0, s), Slots(g, v4, s + added);
    var room := Row(|added|, SlotsPerCluster(g));
    TailRun(before, recs[..0] + ZeroSlots(room - 0), |before|);
    EndedAt(r, |before|);
    assert Shown(g, v4, s + added) == Shown(g, v0, s);
  }

  lemma AmongShows(g: Geometry, v3: Vol, v4: Vol, d: nat, items: seq<Item>, it: Item, t0: seq<Vol>, t3: seq<Vol>,
                   t4: seq<Vol>)
    requires DirShows(g, v3, d, items) && DirShows(g, v4, d, items) && StepsAmong(t3, t4, v3, v4) && t0 <= t3
    ensures EntryTrace(g, d, items, it, t0, t3) ==> EntryTrace(g, d, items, it, t0, t4)
  {
    hide DirShows;
    if EntryTrace(g, d, items, it, t0, t3) {
      forall k | |t0| <= k < |t4| ensures DirShows(g, t4[k], d, items) || DirShows(g, t4[k], d, items + [it]) {
        if k < |t3| {
          assert t4[k] == t3[k];
        }
      }
    }
  }

  lemma GrownDirectory(g: Geometry, v0: Vol, v1: Vol, v4: Vol, v5: Vol, s: seq<nat>, added: seq<nat>, it: Item)
    requires VolOk(g, v0) && IsChain(v0.fat, s) && Tombing(g, v0, v1, s, Row(|s|, SlotsPerCluster(g)))
    requires Grown(g, v1, v4, s, added) && VolOk(g, v5) && v5.fat == v4.fat && IsChain(v4.fat, s + added)
    requires forall c | 0 <= c < g.count + 2 && c !in added :: v5.data[c] == v4.data[c]
    requires Shown(g, v5, s + added) == Shown(g, v0, s) + [it]
    ensures DirGrown(g, v0, v5, s, added, it)
  {
    hide IsChain, Shown, Grown, Row, Tombing, VolOk;
    SameLengths(g, v0, v5);
    TombingFat(g, v0, v1, s, Row(|s|, SlotsPerCluster(g)));
    GrownAdded(g, v1, v4, s, added);
    forall c | 0 <= c < |v0.fat| && c !in s + added ensures v5.fat[c] == v0.fat[c] && v5.data[c] == v0.data[c] {
      GrownStays(g, v0, v1, v4, v5, s, added, c);
    }
  }

  lemma TombingFat(g: Geometry, v0: Vol, v: Vol, s: seq<nat>, n: nat)
    requires VolOk(g, v0) && IsChain(v0.fat, s) && Tombing(g, v0, v, s, n)
    ensures VolOk(g, v) && v.fat == v0.fat
  {
  }

  lemma GrownStays(g: Geometry, v0: Vol, v1: Vol, v4: Vol, v5: Vol, s: seq<nat>, added: seq<nat>, c: nat)
    requires VolOk(g, v0) && IsChain(v0.fat, s) && Tombing(g, v0, v1, s, Row(|s|, SlotsPerCluster(g)))
    requires Grown(g, v1, v4, s, added) && VolOk(g, v5) && v5.fat == v4.fat
    requires forall x | 0 <= x < g.count + 2 && x !in added :: v5.data[x] == v4.data[x]
    requires c < |v0.fat| && c !in s + added
    ensures v5.fat[c] == v0.fat[c] && v5.data[c] == v0.data[c]
  {
  }

  lemma GrownAdded(g: Geometry, v: Vol, v': Vol, s: seq<nat>, added: seq<nat>)
    requires Grown(g, v, v', s, added)
    ensures forall i | 0 <= i < |added| :: 2 <= added[i] < |v.fat| && v.fat[added[i]] == 0
  {
  }

  lemma GrownElsewhere(g: Geometry, v: Vol, v': Vol, s: seq<nat>, added: seq<nat>, c: nat)
    requires Grown(g, v, v', s, added) && c < |v.fat| && c !in s + added
    ensures v'.fat[c] == v.fat[c] && v'.data[c] == v.data[c]
    ensures c !in s && c !in added
  {
  }

  lemma LinkFits(g: Geometry, c: nat)
    requires g.Valid() && c < g.count + 2
    ensures c % 0x1000_0000 == c
  {
  }

  // -------------------------------------------------- about deleting the tail

  ghost function TailStart(g: Geometry, v: Vol, s: seq<nat>): nat
    requires VolOk(g, v) && InRange(v.fat, s)
  {
    EndAt(Slots(g, v, s), 0)
  }

  /** The slots with everything unused before slot `n` deleted. */
  ghost function TombstonedTo(slots: seq<Slot>, n: nat): (r: seq<Slot>)
    requires n <= |slots|
    ensures |r| == |slots|
  {
    if n <= EndAt(slots, 0) then slots else Tombstoned(slots, EndAt(slots, 0), n)
  }

  /** `v` is `v0` after the unused slots before slot `n` of the directory `s` were marked deleted. */
  ghost predicate Tombing(g: Geometry, v0: Vol, v: Vol, s: seq<nat>, n: nat)
    requires VolOk(g, v0) && InRange(v0.fat, s)
  {
    && VolOk(g, v) && v.fat == v0.fat && n <= Row(|s|, SlotsPerCluster(g))
    && (forall c | 0 <= c < |v0.data| && c !in s :: v.data[c] == v0.data[c])
    && Slots(g, v, s) == TombstonedTo(Slots(g, v0, s), n)
  }

  /** No record in the tail up to slot `n` would list. */
  ghost predicate QuietTo(slots: seq<Slot>, n: nat)
  {
    forall i | EndAt(slots, 0) <= i <= n && i < |slots| :: !IsShort(slots[i])
  }

  /** If the tail was quiet, every write in between left the listing as it was; and if every write
      left it as it was or with `it` added, the tail up to slot `n` was quiet. */
  ghost predicate QuietTrace(g: Geometry, v0: Vol, s: seq<nat>, it: Item, n: nat, before: seq<Vol>, after: seq<Vol>)
    requires VolOk(g, v0) && IsChain(v0.fat, s)
  {
    && before <= after
    && (QuietTail(Slots(g, v0, s)) ==>
          forall k | |before| <= k < |after| :: DirShows(g, after[k], s[0], Shown(g, v0, s)))
    && (EntryTrace(g, s[0], Shown(g, v0, s), it, before, after) ==> QuietTo(Slots(g, v0, s), n))
  }

  /** The volume shows the old listing, or that with `it` added. */
  ghost predicate ShowsEither(g: Geometry, v: Vol, d: nat, items: seq<Item>, it: Item)
  {
    DirShows(g, v, d, items) || DirShows(g, v, d, items + [it])
  }

  lemma QuietTraceNext(g: Geometry, v0: Vol, s: seq<nat>, it: Item, n: nat, t0: seq<Vol>, t: seq<Vol>, v: Vol)
    requires VolOk(g, v0) && IsChain(v0.fat, s) && QuietTrace(g, v0, s, it, n, t0, t)
    requires QuietTail(Slots(g, v0, s)) ==> DirShows(g, v, s[0], Shown(g, v0, s))
    requires ShowsEither(g, v, s[0], Shown(g, v0, s), it) && QuietTo(Slots(g, v0, s), n) ==>
             QuietTo(Slots(g, v0, s), n + 1)
    ensures QuietTrace(g, v0, s, it, n + 1, t0, t + [v])
  {
    hide Slots, QuietTail, DirShows, QuietTo, Shown, IsPath;
    var items, t' := Shown(g, v0, s), t + [v];
    if EntryTrace(g, s[0], items, it, t0, t') {
      EntryTracePrefix(g, s[0], items, it, t0, t, t');
      assert t'[|t|] == v;
    }
  }

  lemma QuietTraceSkip(g: Geometry, v0: Vol, s: seq<nat>, it: Item, n: nat, t0: seq<Vol>, t: seq<Vol>)
    requires VolOk(g, v0) && IsChain(v0.fat, s) && QuietTrace(g, v0, s, it, n, t0, t) && n < TailStart(g, v0, s)
    ensures QuietTrace(g, v0, s, it, n + 1, t0, t)
  {
    hide Slots, QuietTail, DirShows, Shown, IsPath;
  }

  lemma TombingStart(g: Geometry, v0: Vol, s: seq<nat>, it: Item, t: seq<Vol>)
    requires VolOk(g, v0) && IsChain(v0.fat, s)
    ensures Tombing(g, v0, v0, s, 0) && QuietTrace(g, v0, s, it, 0, t, t)
  {
  }

  /** The slot about to be handled still reads as in `v0`. */
  lemma TombingHere(g: Geometry, v0: Vol, v: Vol, s: seq<nat>, i: nat, j: nat)
    requires VolOk(g, v0) && InRange(v0.fat, s) && i < |s| && j < SlotsPerCluster(g)
    requires Tombing(g, v0, v, s, Row(i, SlotsPerCluster(g)) + j)
    ensures var n := Row(i, SlotsPerCluster(g)) + j;
            && j * SLOT_SIZE + SLOT_SIZE <= g.ClusterBytes() && n < Row(|s|, SlotsPerCluster(g))
            && v.data[s[i]][j * SLOT_SIZE] == Slots(g, v0, s)[n][0]
            && (n < TailStart(g, v0, s) ==> Slots(g, v0, s)[n][0] != 0)
            && (n == TailStart(g, v0, s) ==> Slots(g, v0, s)[n][0] == 0)
            && (n < TailStart(g, v0, s) ==> Tombing(g, v0, v, s, n + 1))
  {
    hide Slots;
    SlotRead(g, v, s, i, j);
    RowMonotone(i, |s|, SlotsPerCluster(g));
  }

  lemma TombingNext(g: Geometry, v0: Vol, v1: Vol, v2: Vol, s: seq<nat>, i: nat, j: nat, it: Item)
    requires VolOk(g, v0) && IsChain(v0.fat, s) && i < |s| && j < SlotsPerCluster(g)
    requires var n := Row(i, SlotsPerCluster(g)) + j; Tombing(g, v0, v1, s, n) && TailStart(g, v0, s) <= n
    requires v2 == v1.(data := v1.data[s[i] := Splice(v1.data[s[i]], j * SLOT_SIZE, [DELETED])])
    requires Row(|s|, SlotsPerCluster(g)) <= it.slot
    ensures Tombing(g, v0, v2, s, Row(i, SlotsPerCluster(g)) + j + 1)
    ensures QuietTail(Slots(g, v0, s)) ==> DirShows(g, v2, s[0], Shown(g, v0, s))
    ensures var n, slots := Row(i, SlotsPerCluster(g)) + j, Slots(g, v0, s);
            ShowsEither(g, v2, s[0], Shown(g, v0, s), it) && QuietTo(slots, n) ==> QuietTo(slots, n + 1)
  {
    hide Slots, EndAt, Tombstoned, NextOf, QuietTail, TombstonedTo, Listing;
    ChainNoDup(v0.fat, s);
    var n, before := Row(i, SlotsPerCluster(g)) + j, Slots(g, v0, s);
    SlotWrite(g, v1, s, i, j, 0, [DELETED], v2);
    TombstoneStep(before, n);
    if QuietTail(before) {
      TombstonedListing(before, n + 1);
      assert Shown(g, v2, s) == Shown(g, v0, s);
    }
    if ShowsEither(g, v2, s[0], Shown(g, v0, s), it) && n + 1 < |before| {
      StateShows(g, v2, s, before, n + 1, it);
    }
  }

  /** A directory deleted up to slot `n` that still shows its old listing, or that with `it` added,
      has no record at slot `n`. */
  lemma StateShows(g: Geometry, v: Vol, s: seq<nat>, before: seq<Slot>, n: nat, it: Item)
    requires VolOk(g, v) && IsChain(v.fat, s) && InRange(v.fat, s) && EndAt(before, 0) < n < |before| <= it.slot
    requires Slots(g, v, s) == TombstonedTo(before, n) && ShowsEither(g, v, s[0], Listing(before), it)
    ensures !IsShort(before[n])
  {
    hide Slots, EndAt, Tombstoned, NextOf, Listing, IsShort;
    assert DirShows(g, v, s[0], Listing(TombstonedTo(before, n)));
    var items := if DirShows(g, v, s[0], Listing(before)) then Listing(before) else Listing(before) + [it];
    DirShowsUnique(g, v, s[0], items, Listing(TombstonedTo(before, n)));
    if IsShort(before[n]) {
      TailShows(before, n);
    }
  }

  lemma TombstonedListing(slots: seq<Slot>, n: nat)
    requires QuietTail(slots) && n <= |slots|
    ensures Listing(TombstonedTo(slots, n)) == Listing(slots)
  {
    hide Listing, Tombstoned, QuietTail;
    if n > EndAt(slots, 0) {
      TailDeleted(slots, n);
    }
  }

  lemma TombstoneStep(slots: seq<Slot>, n: nat)
    requires EndAt(slots, 0) <= n < |slots|
    ensures TombstonedTo(slots, n)[n := Splice(TombstonedTo(slots, n)[n], 0, [DELETED])] == TombstonedTo(slots, n + 1)
  {
    hide EndAt, Splice, Deleted;
    var e := EndAt(slots, 0);
    assert TombstonedTo(slots, n) == Tombstoned(slots, e, n);
    assert Tombstoned(slots, e, n)[n] == slots[n];
    TombstoneNext(slots, e, n);
  }

  // ------------------------------------------------- about claiming clusters

  /** Every write in between left the clusters of `s` as in `v`. */
  ghost predicate AgreeTrace(g: Geometry, v: Vol, s: seq<nat>, before: seq<Vol>, after: seq<Vol>)
  {
    before <= after && forall k | |before| <= k < |after| :: VolOk(g, after[k]) && Agree(v, after[k], s)
  }

  lemma AgreeTraceStart(g: Geometry, v: Vol, s: seq<nat>, t: seq<Vol>)
    ensures AgreeTrace(g, v, s, t, t)
  {
  }

  lemma ClaimedNothing(g: Geometry, v: Vol, s: seq<nat>, t: seq<Vol>)
    requires VolOk(g, v)
    ensures Claimed(g, v, v, [], 0) && AgreeTrace(g, v, s, t, t)
  {
  }

  lemma ClaimedParts(g: Geometry, v: Vol, v': Vol, added: seq<nat>, k: nat)
    requires Claimed(g, v, v', added, k)
    ensures |v'.fat| == |v.fat| == g.count + 2 && InRange(v'.fat, added)
  {
  }

  lemma ClaimedAll(g: Geometry, v: Vol, v': Vol, added: seq<nat>, k: nat)
    requires Claimed(g, v, v', added, k) && k + 1 >= |added|
    ensures Claimed(g, v, v', added, |added|)
  {
  }

  /** Claiming a cluster uses up one free cluster. */
  lemma ClaimedFree(g: Geometry, v: Vol, v': Vol, added: seq<nat>)
    requires Claimed(g, v, v', added, 0)
    ensures |FreeSet(v.fat)| == |FreeSet(v'.fat)| + |added|
  {
    NoDupSize(added);
    forall c ensures c in FreeSet(v.fat) <==> c in FreeSet(v'.fat) || c in Elements(added) {
      assert c in Elements(added) <==> c in added;
    }
    assert FreeSet(v.fat) == FreeSet(v'.fat) + Elements(added);
    forall c | c in Elements(added) ensures c !in FreeSet(v'.fat) {
      var i :| 0 <= i < |added| && added[i] == c;
      assert v'.fat[added[i]] == LinkAt(added, i, 0);
    }
  }

  lemma ClaimedReleased(g: Geometry, v: Vol, v1: Vol, v2: Vol, added: seq<nat>, s: seq<nat>, t0: seq<Vol>, t1: seq<Vol>,
                        t2: seq<Vol>)
    requires Claimed(g, v, v1, added, 0) && IsChain(v.fat, s) && AgreeTrace(g, v, s, t0, t1)
    requires VolOk(g, v2) && v2.data == v1.data
    requires forall c | 0 <= c < g.count + 2 :: v2.fat[c] == if c in added then 0 else v1.fat[c]
    requires t1 <= t2 && forall i | |t1| <= i < |t2| :: FreedPart(g, v1, t2[i], added)
    ensures v2.fat == v.fat && AgreeTrace(g, v, s, t0, t2)
    ensures forall c | 0 <= c < g.count + 2 && v.fat[c] != 0 :: v2.data[c] == v.data[c]
  {
    ClaimedApart(g, v, v1, added, 0, s);
    forall k | |t0| <= k < |t2| ensures VolOk(g, t2[k]) && Agree(v, t2[k], s) {
      if k < |t1| {
        assert t2[k] == t1[k];
      } else {
        assert FreedPart(g, v1, t2[k], added);
      }
    }
  }

  lemma ClaimedTrace(g: Geometry, v: Vol, v1: Vol, added: seq<nat>, s: seq<nat>, c: nat, t0: seq<Vol>, t1: seq<Vol>,
                     t2: seq<Vol>)
    requires Claimed(g, v, v1, added, 0) && IsChain(v.fat, s) && AgreeTrace(g, v, s, t0, t1)
    requires c < |v1.fat| && v1.fat[c] == 0 && StepsOff(g, t1, t2, v1, c)
    ensures AgreeTrace(g, v, s, t0, t2)
  {
    ClaimedApart(g, v, v1, added, 0, s);
    forall i | 0 <= i < |s| ensures s[i] != c {
      ChainInUse(v.fat, s, i);
    }
    forall k | |t0| <= k < |t2| ensures VolOk(g, t2[k]) && Agree(v, t2[k], s) {
      if k < |t1| {
        assert t2[k] == t1[k];
      } else {
        assert AgreeOff(g, v1, t2[k], c);
      }
    }
  }

  lemma LinkTrace(g: Geometry, v: Vol, v1: Vol, v2: Vol, added: seq<nat>, k: nat, s: seq<nat>, t0: seq<Vol>,
                  t1: seq<Vol>, t2: seq<Vol>)
    requires Claimed(g, v, v1, added, k) && Claimed(g, v, v2, added, k + 1) && IsChain(v.fat, s)
    requires AgreeTrace(g, v, s, t0, t1) && StepsAmong(t1, t2, v1, v2)
    ensures AgreeTrace(g, v, s, t0, t2)
  {
    hide IsChain, Claimed;
    ClaimedApart(g, v, v1, added, k, s);
    ClaimedApart(g, v, v2, added, k + 1, s);
    ClaimedOk(g, v, v1, added, k);
    ClaimedOk(g, v, v2, added, k + 1);
    forall i | |t0| <= i < |t2| ensures VolOk(g, t2[i]) && Agree(v, t2[i], s) {
      if i < |t1| {
        assert t2[i] == t1[i];
      }
    }
  }

  lemma ClaimedOk(g: Geometry, v: Vol, v': Vol, added: seq<nat>, k: nat)
    requires Claimed(g, v, v', added, k)
    ensures VolOk(g, v')
  {
  }

  /** `loc` is where the first entry called `name` of the directory with chain `s` stands. */
  ghost predicate FoundAt(g: Geometry, v: Vol, s: seq<nat>, name: seq<nat>, loc: Location)
    requires VolOk(g, v) && IsChain(v.fat, s)
  {
    var items := Shown(g, v, s);
    var p := FindItem(items, name, 0);
    p < |items| && items[p].slot < Row(|s|, SlotsPerCluster(g)) && loc == Place(g, s, items[p])
  }

  lemma NoneMatch(name: seq<nat>)
    ensures NoMatch([], name)
  {
  }

  lemma ChainInRange(fat: seq<nat>, s: seq<nat>)
    requires IsChain(fat, s)
    ensures InRange(fat, s)
  {
  }

  lemma ChainNext(fat: seq<nat>, s: seq<nat>, i: nat)
    requires IsChain(fat, s) && i < |s|
    ensures NextOf(fat, s[i]) == if i == |s| - 1 then End else Link(s[i + 1])
  {
  }

  lemma NoMatchLonger(a: seq<Item>, b: seq<Item>, name: seq<nat>)
    requires NoMatch(a, name)
    requires a == b || (|b| == |a| + 1 && b[..|a|] == a && !SameName(b[|a|].name, name))
    ensures NoMatch(b, name)
  {
  }

  lemma EndedHere(slots: seq<Slot>, n: nat, name: seq<nat>)
    requires n < |slots| && slots[n][0] == 0 && !Run(slots, n).ended && NoMatch(Run(slots, n).out, name)
    ensures NoMatch(Listing(slots), name)
  {
    EndedAt(slots, n);
  }

  lemma FoundHere(g: Geometry, v: Vol, s: seq<nat>, slots: seq<Slot>, i: nat, j: nat, name: seq<nat>, n: nat, p: nat,
                  it: Item)
    requires VolOk(g, v) && IsChain(v.fat, s) && i < |s| && j < SlotsPerCluster(g)
    requires slots == Slots(g, v, s) && n == Row(i, SlotsPerCluster(g)) + j && n < |slots|
    requires p == |Run(slots, n).out| && NoMatch(Run(slots, n).out, name)
    requires p < |Run(slots, n + 1).out| && Run(slots, n + 1).out[p] == it && SameName(it.name, name)
    ensures FoundAt(g, v, s, name, Location(s[i], j * SLOT_SIZE, it.first, it.size, it.isDir))
  {
    hide Step, Slots, Place;
    RunGrows(slots, n, n + 1);
    RunGrows(slots, n + 1, |slots|);
    var items := Listing(slots);
    assert items[..p] == Run(slots, n).out;
    FindFirst(items, name, p);
    FoundSlot(slots, n, p);
    PlaceAt(g, s, items[p], i, j);
  }

  lemma FoundSlot(slots: seq<Slot>, n: nat, p: nat)
    requires n < |slots| && p == |Run(slots, n).out| && p < |Run(slots, n + 1).out|
    ensures Run(slots, n + 1).out[p].slot == n
  {
  }

  /** `b` with the first `k` bytes of `data` written at `offset`. */
  ghost function Overlaid(b: seq<Byte>, offset: nat, data: seq<Byte>, k: nat): (r: seq<Byte>)
    requires k <= |data| && (k > 0 ==> offset + k <= |b|)
    ensures |r| == |b| && (k == 0 ==> r == b)
  {
    if k == 0 then b else Splice(b, offset, data[..k])
  }

  lemma PieceWritten(b: seq<Byte>, offset: nat, data: seq<Byte>, k: nat, n: nat)
    requires k + n <= |data| && offset + k + n <= |b|
    ensures Splice(Overlaid(b, offset, data, k), offset + k, data[k..k + n]) == Overlaid(b, offset, data, k + n)
  {
  }

  lemma WholeWritten(b: seq<Byte>, offset: nat, data: seq<Byte>)
    requires data != [] ==> offset + |data| <= |b|
    ensures data != [] ==> Overlaid(b, offset, data, |data|) == Splice(b, offset, data)
  {
  }

  lemma GrownNothing(g: Geometry, v: Vol, s: seq<nat>)
    requires VolOk(g, v) && (s == [] || IsChain(v.fat, s))
    ensures Grown(g, v, v, s, [])
  {
  }

  lemma GrownParts(g: Geometry, v: Vol, v': Vol, s: seq<nat>, added: seq<nat>)
    requires Grown(g, v, v', s, added)
    ensures |v'.fat| == |v.fat| == g.count + 2 && (|s| + |added| > 0 ==> IsChain(v'.fat, s + added))
    ensures InRange(v'.fat, s + added)
  {
  }

  lemma NothingFree(fat: seq<nat>)
    requires forall c | 2 <= c < |fat| :: fat[c] != 0
    ensures FreeSet(fat) == {}
  {
  }

  lemma RolledBack(g: Geometry, v: Vol, v1: Vol, v2: Vol, s: seq<nat>, added: seq<nat>)
    requires Grown(g, v, v1, s, added) && (s == [] || IsChain(v.fat, s))
    requires VolOk(g, v2) && v2.data == v1.data
    requires |s| > 0 ==> (s + added)[|s| - 1] !in (s + added)[|s|..] ==>
               forall c | 0 <= c < g.count + 2 ::
                 v2.fat[c] == if c in (s + added)[|s|..] then 0 else if c == (s + added)[|s| - 1] then EOC
                   else v1.fat[c]
    requires |s| == 0 ==> forall c | 0 <= c < g.count + 2 :: v2.fat[c] == if c in s + added then 0 else v1.fat[c]
    ensures SameChains(v.fat, v2.fat)
    ensures forall c | 0 <= c < g.count + 2 && v.fat[c] != 0 :: v2.data[c] == v.data[c]
  {
  }

  /** `v'` is `v` with some of the clusters of `chain` freed. */
  ghost predicate FreedPart(g: Geometry, v: Vol, v': Vol, chain: seq<nat>)
  {
    && VolOk(g, v') && |v'.fat| == |v.fat| && v'.data == v.data
    && forall c | 0 <= c < |v.fat| && c !in chain :: v'.fat[c] == v.fat[c]
  }

  lemma AllocationSteps(g: Geometry, t0: seq<Vol>, t1: seq<Vol>, t2: seq<Vol>, v: Vol, v1: Vol, c: nat)
    requires VolOk(g, v) && VolOk(g, v1) && c < |v.fat| && v1 == v.(fat := v.fat[c := EOC])
    requires StepsAmong(t0, t1, v, v1) && StepsOff(g, t1, t2, v1, c)
    ensures StepsOff(g, t0, t2, v, c)
  {
  }

  lemma NoLongChain(fat: seq<nat>, path: seq<nat>, c: nat)
    requires |path| + 2 >= |fat| > 2 && IsPath(fat, path) && NextOf(fat, path[|path| - 1]) == Link(c)
    ensures forall s | IsChain(fat, s) :: s[0] != path[0]
  {
    var longer := path + [c];
    forall i | 0 <= i < |longer| - 1 ensures NextOf(fat, longer[i]) == Link(longer[i + 1]) {
      if i < |path| - 1 {
        assert NextOf(fat, path[i]) == Link(path[i + 1]);
      }
    }
    assert IsPath(fat, longer);
    forall s | IsChain(fat, s) ensures s[0] != path[0] {
      ChainLength(fat, s);
      if s[0] == path[0] {
        PathWithinChain(fat, longer, s);
      }
    }
  }

  lemma NoBrokenChain(fat: seq<nat>, path: seq<nat>, c: nat)
    requires NextOf(fat, c) == Broken
    requires path != [] ==> IsPath(fat, path) && NextOf(fat, path[|path| - 1]) == Link(c)
    ensures forall s | IsChain(fat, s) :: s[0] != (path + [c])[0]
  {
    forall s | IsChain(fat, s) ensures s[0] != (path + [c])[0] {
      ChainInUse(fat, s, 0);
      assert |s| > 1 ==> NextOf(fat, s[0]) == Link(s[1]);
      if path != [] && s[0] == path[0] {
        PathWithinChain(fat, path, s);
        BrokenInside(fat, path, s, c);
      }
    }
  }

  lemma BrokenInside(fat: seq<nat>, path: seq<nat>, s: seq<nat>, c: nat)
    requires path != [] && IsChain(fat, s) && |path| <= |s| && path == s[..|path|]
    requires NextOf(fat, path[|path| - 1]) == Link(c)
    ensures NextOf(fat, c) != Broken
  {
    var k := |path| - 1;
    assert s[k] == path[k];
    if k < |s| - 1 {
      assert NextOf(fat, s[k]) == Link(s[k + 1]);
      if k + 1 < |s| - 1 {
        assert NextOf(fat, s[k + 1]) == Link(s[k + 2]);
      }
    }
  }
}
