/** That each finished file-system operation leaves a volume which passes the check again, and that
    it leaves every other file and directory alone. */
module FatFsck {
  import opened Bytes
  import opened FatChains
  import opened FatLayout
  import opened FatContent
  import opened FatDirectory
  import opened FatTree
  import opened FatVolume
  import opened Rows

  /** Contents of all used clusters are the same, except in the chains of `heads`. */
  ghost predicate DataKept(v: Vol, v': Vol, t: Tree, heads: set<nat>)
  {
    |v.data| == |v'.data| &&
    forall c | c in t.at && t.at[c] !in heads && c < |v.data| :: v'.data[c] == v.data[c]
  }

  lemma ChainKept(g: Geometry, v: Vol, v': Vol, t: Tree, heads: set<nat>, h: nat)
    requires VolOk(g, v) && VolOk(g, v') && HeadsOk(v.fat, t) && MembersOk(t) && DataKept(v, v', t, heads)
    requires h in t.chains && h !in heads
    ensures Stored(g, v', t.chains[h]) == Stored(g, v, t.chains[h])
    ensures Shown(g, v', t.chains[h]) == Shown(g, v, t.chains[h])
  {
    hide Listing, Slots, Content;
    var s := t.chains[h];
    assert IsChain(v.fat, s);
    forall i | 0 <= i < |s| ensures v'.data[s[i]] == v.data[s[i]] {
      assert s[i] in t.at && t.at[s[i]] == h;
    }
    ContentFrame(g, v, v', s);
    ShownFrame(g, v, v', s);
  }

  /** Files other than those of `heads` keep their chain and their contents. */
  ghost predicate FilesKept(g: Geometry, v: Vol, t: Tree, v': Vol, t': Tree, heads: set<nat>)
  {
    forall h | h in t.chains && h !in t.depth && h !in heads ::
      h in t'.chains && h !in t'.depth && t'.chains[h] == t.chains[h]
        && Stored(g, v', t.chains[h]) == Stored(g, v, t.chains[h])
  }

  /** Directories other than those of `heads` keep their chain and their listing. */
  ghost predicate DirsKept(g: Geometry, v: Vol, t: Tree, v': Vol, t': Tree, heads: set<nat>)
  {
    forall d | d in t.depth && d in t.chains && d !in heads ::
      d in t'.chains && d in t'.depth && t'.chains[d] == t.chains[d]
        && Shown(g, v', t.chains[d]) == Shown(g, v, t.chains[d])
  }

  lemma AllKept(g: Geometry, v: Vol, v': Vol, t: Tree, t': Tree, heads: set<nat>)
    requires VolOk(g, v) && VolOk(g, v') && HeadsOk(v.fat, t) && MembersOk(t) && DataKept(v, v', t, heads)
    requires forall h | h in t.chains && h !in heads :: h in t'.chains && t'.chains[h] == t.chains[h]
    requires forall h | h in t.chains && h !in heads :: (h in t.depth <==> h in t'.depth)
    ensures FilesKept(g, v, t, v', t', heads) && DirsKept(g, v, t, v', t', heads)
  {
    hide Stored, Shown, DataKept, HeadsOk, MembersOk, VolOk;
    forall h | h in t.chains && h !in heads
      ensures Stored(g, v', t.chains[h]) == Stored(g, v, t.chains[h])
      ensures Shown(g, v', t.chains[h]) == Shown(g, v, t.chains[h])
    {
      ChainKept(g, v, v', t, heads, h);
    }
  }

  // ------------------------------------------------------- nothing happened

  /** Tables that differ in end marks only, with used clusters unchanged except that directory `d` may
      show the same listing differently stored. */
  lemma FsckSame(g: Geometry, v: Vol, v': Vol, t: Tree, d: nat)
    requires Fsck(g, v, t) && VolOk(g, v') && SameChains(v.fat, v'.fat) && d in t.depth
    requires DataKept(v, v', t, {d}) && Shown(g, v', t.chains[d]) == Shown(g, v, t.chains[d])
    ensures Fsck(g, v', t)
    ensures FilesKept(g, v, t, v', t, {}) && DirsKept(g, v, t, v', t, {})
  {
    hide Stored, Shown, DataKept, SameChains, TreeOk, HeadsOk, MembersOk, CoverOk, VolOk;
    SameChainsOk(v.fat, v'.fat, t);
    AllKept(g, v, v', t, t, {d});
    ListingsChanged(g, v, v', t, t, d, Shown(g, v, t.chains[d]));
    assert AllListings(g, v, t)[d := Shown(g, v, t.chains[d])] == AllListings(g, v, t);
  }

  // --------------------------------------------------------- one file changed

  /** The listings when only directory `d` lists something new. */
  lemma ListingsChanged(g: Geometry, v: Vol, v': Vol, t: Tree, t': Tree, d: nat, items: seq<Item>)
    requires t'.depth.Keys == t.depth.Keys <= t.chains.Keys && t'.depth.Keys <= t'.chains.Keys && d in t.depth
    requires DirsKept(g, v, t, v', t', {d}) && Shown(g, v', t'.chains[d]) == items
    ensures AllListings(g, v', t') == AllListings(g, v, t)[d := items]
  {
    hide Shown;
  }

  /** A head that is free is no chain's head. */
  lemma FreeIsNoHead(fat: seq<nat>, t: Tree, c: nat)
    requires ChainsOk(fat, t) && 2 <= c < |fat| && fat[c] == 0
    ensures c !in t.chains && c !in t.at
  {
  }

  ghost function TreeAfterWrite(t: Tree, d: nat, slot: nat, h: nat, s: seq<nat>): Tree
  {
    WithChain(t, h, s).(owner := t.owner[h := (d, slot)])
  }

  /** The file entry at position `p` of directory `d` may name `h`: its chain, or a new one. */
  ghost predicate FileAt(t: Tree, items: seq<Item>, p: nat, h: nat)
  {
    && p < |items| && !IsDot(items[p].name) && !items[p].isDir && h != 0
    && (items[p].first == h || (items[p].first == 0 && h !in t.chains))
  }

  /** A file was written: its chain grew by free clusters, its entry says so. */
  lemma FsckWrite(g: Geometry, v: Vol, v': Vol, t: Tree, d: nat, items: seq<Item>, p: nat, h: nat, added: seq<nat>,
                  bytes: nat)
    requires Fsck(g, v, t) && VolOk(g, v') && |v'.fat| == |v.fat|
    requires d in t.depth && items == Shown(g, v, t.chains[d]) && FileAt(t, items, p, h)
    requires Shown(g, v', t.chains[d]) == items[p := NewItem(items[p], h, bytes)]
    requires var s := ChainOr(t, h) + added; IsChain(v'.fat, s) && s[0] == h && bytes <= Row(|s|, g.ClusterBytes())
    requires forall i | 0 <= i < |added| :: 2 <= added[i] < |v.fat| && v.fat[added[i]] == 0
    requires forall c | 2 <= c < |v.fat| && c !in ChainOr(t, h) + added :: v'.fat[c] == v.fat[c]
    requires DataKept(v, v', t, {d, h})
    ensures var t' := TreeAfterWrite(t, d, items[p].slot, h, ChainOr(t, h) + added);
            Fsck(g, v', t') && FilesKept(g, v, t, v', t', {h}) && DirsKept(g, v, t, v', t', {d})
  {
    hide Stored, Shown, DataKept, IsPath, TreeOk, HeadsOk, MembersOk, CoverOk, FilesKept, DirsKept, AllListings, AllTo,
      VolOk;
    var t' := TreeAfterWrite(t, d, items[p].slot, h, ChainOr(t, h) + added);
    ExtendChainsOk(v.fat, v'.fat, t, h, added);
    SameChainsPart(v'.fat, WithChain(t, h, ChainOr(t, h) + added), t');
    WriteHead(g, v, t, d, items, p, h);
    KeptAfterWrite(g, v, v', t, t', d, h);
    ListingsChanged(g, v, v', t, t', d, items[p := NewItem(items[p], h, bytes)]);
    RewriteAfterWrite(g, t, t', d, items[p], h, bytes);
    FileRewritten(g.root, g.ClusterBytes(), t, t', AllListings(g, v, t), d, p, h, bytes);
  }

  lemma SameChainsPart(fat: seq<nat>, t: Tree, t': Tree)
    requires ChainsOk(fat, t) && t'.chains == t.chains && t'.at == t.at
    ensures ChainsOk(fat, t')
  {
  }

  lemma RewriteAfterWrite(g: Geometry, t: Tree, t': Tree, d: nat, it: Item, h: nat, bytes: nat)
    requires h != 0 && h !in t.depth && h in t'.chains && bytes <= Row(|t'.chains[h]|, g.ClusterBytes())
    requires t'.depth == t.depth && t'.owner == t.owner[h := (d, it.slot)] && t'.chains == t.chains[h := t'.chains[h]]
    ensures RewriteOk(t, t', g.ClusterBytes(), d, it, h, bytes)
  {
  }

  lemma WriteHead(g: Geometry, v: Vol, t: Tree, d: nat, items: seq<Item>, p: nat, h: nat)
    requires Fsck(g, v, t) && d in t.depth && items == Shown(g, v, t.chains[d]) && FileAt(t, items, p, h)
    ensures h !in t.depth && h != d && 0 !in t.chains && 0 !in t.owner && t.depth.Keys <= t.chains.Keys
    ensures d in AllListings(g, v, t) && AllListings(g, v, t)[d] == items
  {
    hide Shown, DirOk;
    var ls := AllListings(g, v, t);
    GetItem(g.root, g.ClusterBytes(), t, ls, d, p);
    forall c | c in t.owner ensures c != 0 {
      assert OwnerOk(t, ls, c);
    }
  }

  lemma KeptAfterWrite(g: Geometry, v: Vol, v': Vol, t: Tree, t': Tree, d: nat, h: nat)
    requires Fsck(g, v, t) && VolOk(g, v') && d in t.depth && h !in t.depth && DataKept(v, v', t, {d, h})
    requires t'.depth == t.depth && forall x | x in t.chains && x != h :: x in t'.chains && t'.chains[x] == t.chains[x]
    ensures FilesKept(g, v, t, v', t', {h}) && DirsKept(g, v, t, v', t', {d})
  {
    hide Stored, Shown, DataKept, TreeOk, HeadsOk, MembersOk, CoverOk, VolOk;
    AllKept(g, v, v', t, t', {d, h});
  }

  // ------------------------------------------------------- a chain given up

  /** `fat'` is `fat` with the chain of `h` (if any) freed. */
  ghost predicate Freed(fat: seq<nat>, fat': seq<nat>, t: Tree, h: nat)
  {
    |fat'| == |fat| && forall c | 2 <= c < |fat| :: fat'[c] == if c in ChainOr(t, h) then 0 else fat[c]
  }

  lemma ReleasedChainsOk(fat: seq<nat>, fat': seq<nat>, t: Tree, h: nat)
    requires ChainsOk(fat, t) && Freed(fat, fat', t, h) && 0 !in t.chains && (h == 0 || h in t.chains)
    ensures ChainsOk(fat', Released(t, h))
  {
    if h == 0 {
      SameChainsOkEq(fat, fat', t);
    } else {
      DropChainsOk(fat, fat', t, h);
      SameChainsPart(fat', WithoutChain(t, h), Released(t, h));
    }
  }

  lemma SameChainsOkEq(fat: seq<nat>, fat': seq<nat>, t: Tree)
    requires ChainsOk(fat, t) && |fat'| == |fat| && forall c | 2 <= c < |fat| :: fat'[c] == fat[c]
    ensures ChainsOk(fat', t)
  {
    forall h | h in t.chains ensures IsChain(fat', t.chains[h]) && t.chains[h][0] == h {
      ChainFrame(fat, fat', t.chains[h]);
    }
  }

  lemma KeptAfterRelease(g: Geometry, v: Vol, v': Vol, t: Tree, d: nat, h: nat)
    requires Fsck(g, v, t) && VolOk(g, v') && d in t.depth && (h == 0 || h in t.chains) && h != d
             && DataKept(v, v', t, {d})
    ensures var t' := Released(t, h);
            FilesKept(g, v, t, v', t', {h}) && DirsKept(g, v, t, v', t', {d, h}) && d in t'.chains
              && t'.chains[d] == t.chains[d]
  {
    hide Stored, Shown, DataKept, TreeOk, HeadsOk, MembersOk, CoverOk, VolOk;
    DataKeptMore(v, v', t, d, h);
    AllKept(g, v, v', t, Released(t, h), {d, h});
  }

  lemma DataKeptMore(v: Vol, v': Vol, t: Tree, d: nat, h: nat)
    requires DataKept(v, v', t, {d})
    ensures DataKept(v, v', t, {d, h})
  {
  }

  /** A file was truncated: its entry names no cluster, its chain is free. */
  lemma FsckTruncate(g: Geometry, v: Vol, v': Vol, t: Tree, d: nat, items: seq<Item>, p: nat)
    requires Fsck(g, v, t) && VolOk(g, v') && d in t.depth && items == Shown(g, v, t.chains[d])
    requires p < |items| && !IsDot(items[p].name) && !items[p].isDir
    requires Shown(g, v', t.chains[d]) == items[p := NewItem(items[p], 0, 0)]
    requires Freed(v.fat, v'.fat, t, items[p].first) && DataKept(v, v', t, {d})
    ensures items[p].first == 0 || items[p].first in t.chains
    ensures var t' := Released(t, items[p].first);
            Fsck(g, v', t') && FilesKept(g, v, t, v', t', {items[p].first}) && DirsKept(g, v, t, v', t', {d})
  {
    hide Stored, Shown, DataKept, IsPath, TreeOk, HeadsOk, MembersOk, CoverOk, FilesKept, DirsKept, AllListings, VolOk,
      Freed;
    var h := items[p].first;
    TruncateHead(g, v, t, d, items, p);
    var t' := Released(t, h);
    ReleasedChainsOk(v.fat, v'.fat, t, h);
    KeptAfterRelease(g, v, v', t, d, h);
    NarrowDirs(g, v, t, v', t', d, h);
    ReleasedDepth(t, h);
    ListingsChanged(g, v, v', t, t', d, items[p := NewItem(items[p], 0, 0)]);
    RewriteAfterRelease(g, t, d, items[p]);
    FileRewritten(g.root, g.ClusterBytes(), t, t', AllListings(g, v, t), d, p, 0, 0);
  }

  lemma NarrowDirs(g: Geometry, v: Vol, t: Tree, v': Vol, t': Tree, d: nat, h: nat)
    requires DirsKept(g, v, t, v', t', {d, h}) && h !in t.depth
    ensures DirsKept(g, v, t, v', t', {d})
  {
  }

  lemma ReleasedDepth(t: Tree, h: nat)
    requires (h == 0 || h in t.chains) && h !in t.depth && t.depth.Keys <= t.chains.Keys
    ensures Released(t, h).depth == t.depth && t.depth.Keys <= Released(t, h).chains.Keys
    ensures 0 !in t.chains && 0 !in t.owner ==> h !in Released(t, h).chains && h !in Released(t, h).owner
  {
  }

  lemma RewriteAfterRelease(g: Geometry, t: Tree, d: nat, it: Item)
    requires (it.first == 0 || it.first in t.chains) && it.first !in t.depth && 0 !in t.chains && 0 !in t.owner
    ensures RewriteOk(t, Released(t, it.first), g.ClusterBytes(), d, it, 0, 0)
  {
  }

  lemma TruncateHead(g: Geometry, v: Vol, t: Tree, d: nat, items: seq<Item>, p: nat)
    requires Fsck(g, v, t) && d in t.depth && items == Shown(g, v, t.chains[d])
    requires p < |items| && !IsDot(items[p].name)
    ensures 0 !in t.chains && 0 !in t.owner && t.depth.Keys <= t.chains.Keys && items[p].first != d
            && items[p].first != g.root
    ensures items[p].first == 0 || items[p].first in t.chains
    ensures !items[p].isDir ==> items[p].first !in t.depth
    ensures items[p].isDir ==> items[p].first in t.depth
    ensures d in AllListings(g, v, t) && AllListings(g, v, t)[d] == items
  {
    hide Shown, DirOk;
    var ls := AllListings(g, v, t);
    GetItem(g.root, g.ClusterBytes(), t, ls, d, p);
    forall c | c in t.owner ensures c != 0 {
      assert OwnerOk(t, ls, c);
    }
  }

  /** A file, or a directory without entries of its own, was removed. */
  lemma FsckRemove(g: Geometry, v: Vol, v': Vol, t: Tree, d: nat, items: seq<Item>, p: nat)
    requires Fsck(g, v, t) && VolOk(g, v') && d in t.depth && items == Shown(g, v, t.chains[d])
    requires p < |items| && !IsDot(items[p].name)
    requires items[p].isDir ==> (items[p].first in t.chains && OnlyDots(Shown(g, v, t.chains[items[p].first])))
    requires Shown(g, v', t.chains[d]) == Without(items, p)
    requires Freed(v.fat, v'.fat, t, items[p].first) && DataKept(v, v', t, {d})
    ensures items[p].first == 0 || items[p].first in t.chains
    ensures var t' := Released(t, items[p].first);
            Fsck(g, v', t') && FilesKept(g, v, t, v', t', {items[p].first})
            && DirsKept(g, v, t, v', t', {d, items[p].first})
  {
    hide Stored, Shown, DataKept, IsPath, TreeOk, HeadsOk, MembersOk, CoverOk, FilesKept, DirsKept, VolOk, Freed;
    var h := items[p].first;
    TruncateHead(g, v, t, d, items, p);
    ReleasedChainsOk(v.fat, v'.fat, t, h);
    KeptAfterRelease(g, v, v', t, d, h);
    ListingsRemoved(g, v, v', t, d, items, p);
    EntryRemoved(g.root, g.ClusterBytes(), t, AllListings(g, v, t), d, p);
  }

  lemma ListingsRemoved(g: Geometry, v: Vol, v': Vol, t: Tree, d: nat, items: seq<Item>, p: nat)
    requires d in t.depth && t.depth.Keys <= t.chains.Keys && 0 !in t.chains && items == Shown(g, v, t.chains[d])
             && p < |items|
    requires var h := items[p].first; (h == 0 || h in t.chains) && h != d && (items[p].isDir <==> h in t.depth)
    requires DirsKept(g, v, t, v', Released(t, items[p].first), {d, items[p].first})
    requires Shown(g, v', t.chains[d]) == Without(items, p)
    ensures AllListings(g, v', Released(t, items[p].first)) == Removed(AllListings(g, v, t), d, p)
    ensures Released(t, items[p].first).depth.Keys <= Released(t, items[p].first).chains.Keys
  {
    hide Shown;
  }

  // --------------------------------------------------------- an entry added

  /** `v'` differs from `v` by the directory `d` having grown by `added`, now listing `it` as well,
      and, unless `c` is zero, by the new directory cluster `c`. */
  ghost predicate EntryGrown(g: Geometry, v: Vol, v': Vol, t: Tree, d: nat, added: seq<nat>, it: Item, c: nat)
    requires d in t.chains
  {
    && VolOk(g, v') && |v'.fat| == |v.fat|
    && IsChain(v'.fat, t.chains[d] + added)
    && (forall i | 0 <= i < |added| :: 2 <= added[i] < |v.fat| && v.fat[added[i]] == 0 && added[i] != c)
    && (forall x | 2 <= x < |v.fat| && x !in t.chains[d] + added && x != c :: v'.fat[x] == v.fat[x])
    && (c != 0 ==> 2 <= c < |v.fat| && v.fat[c] == 0 && IsChain(v'.fat, [c]))
    && DataKept(v, v', t, {d})
    && Shown(g, v', t.chains[d] + added) == Shown(g, v, t.chains[d]) + [it]
  }

  ghost function TreeAfterAdd(t: Tree, d: nat, added: seq<nat>, slot: nat, c: nat): Tree
    requires d in t.chains && d in t.depth
  {
    if c == 0 then WithChain(t, d, t.chains[d] + added)
    else WithChain(WithChain(t, c, [c]), d, t.chains[d] + added).(
           depth := t.depth[c := t.depth[d] + 1], owner := t.owner[c := (d, slot)])
  }

  lemma AddedChainsOk(g: Geometry, v: Vol, v': Vol, t: Tree, d: nat, added: seq<nat>, it: Item, c: nat)
    requires Fsck(g, v, t) && d in t.depth && d in t.chains && EntryGrown(g, v, v', t, d, added, it, c)
    ensures ChainsOk(v'.fat, TreeAfterAdd(t, d, added, it.slot, c))
  {
    hide Stored, Shown, DataKept, IsPath, TreeOk, MembersOk, CoverOk, VolOk, AllTo;
    var s := t.chains[d];
    assert IsChain(v.fat, s) && s[0] == d && s + added != [] && (s + added)[0] == d;
    if c == 0 {
      ExtendChainsOk(v.fat, v'.fat, t, d, added);
    } else {
      var mid := v.fat[c := EOC];
      FreeIsNoHead(v.fat, t, c);
      OneClusterChain(mid, c);
      assert ChainOr(t, c) + [c] == [c];
      ExtendChainsOk(v.fat, mid, t, c, [c]);
      var t1 := WithChain(t, c, [c]);
      assert ChainOr(t1, d) == s;
      EocElsewhere(v.fat, v'.fat, c, s + added);
      SameChainsOkMid(v'.fat, mid, t1, d, added, c);
      SameChainsPart(v'.fat, WithChain(t1, d, s + added), TreeAfterAdd(t, d, added, it.slot, c));
    }
  }

  lemma OneClusterChain(fat: seq<nat>, c: nat)
    requires 2 <= c < |fat| && fat[c] == EOC
    ensures IsChain(fat, [c])
  {
  }

  /** The new directory's one-cluster chain ends in both tables. */
  lemma EocElsewhere(fat: seq<nat>, fat': seq<nat>, c: nat, s: seq<nat>)
    requires |fat'| == |fat| && 2 <= c < |fat| && IsChain(fat', [c])
    ensures fat'[c] >= EOC_MIN
  {
  }

  lemma SameChainsOkMid(fat': seq<nat>, mid: seq<nat>, t1: Tree, d: nat, added: seq<nat>, c: nat)
    requires ChainsOk(mid, t1) && |fat'| == |mid| && d in t1.chains && d != c && 2 <= c < |mid|
    requires c in t1.chains && t1.chains[c] == [c] && mid[c] == EOC && fat'[c] >= EOC_MIN
    requires IsChain(fat', t1.chains[d] + added) && (t1.chains[d] + added)[0] == d
    requires forall i | 0 <= i < |added| :: 2 <= added[i] < |mid| && mid[added[i]] == 0
    requires forall x | 2 <= x < |mid| && x !in t1.chains[d] + added && x != c :: fat'[x] == mid[x]
    ensures ChainsOk(fat', WithChain(t1, d, t1.chains[d] + added))
  {
    hide IsChain, AllTo;
    var mid' := mid[c := fat'[c]];
    assert SameChains(mid, mid');
    SameChainsOk(mid, mid', t1);
    ExtendChainsOk(mid', fat', t1, d, added);
  }

  lemma AddedKept(g: Geometry, v: Vol, v': Vol, t: Tree, d: nat, added: seq<nat>, it: Item, c: nat)
    requires Fsck(g, v, t) && d in t.depth && d in t.chains && EntryGrown(g, v, v', t, d, added, it, c)
             && c !in t.chains
    ensures var t' := TreeAfterAdd(t, d, added, it.slot, c);
            FilesKept(g, v, t, v', t', {}) && DirsKept(g, v, t, v', t', {d})
  {
    hide Stored, Shown, DataKept, IsPath, TreeOk, HeadsOk, MembersOk, CoverOk, VolOk;
    AllKept(g, v, v', t, TreeAfterAdd(t, d, added, it.slot, c), {d});
  }

  lemma ListingsAdded(g: Geometry, v: Vol, v': Vol, t: Tree, d: nat, added: seq<nat>, it: Item, c: nat, dots: seq<Item>)
    requires d in t.depth && t.depth.Keys <= t.chains.Keys && EntryGrown(g, v, v', t, d, added, it, c) && c !in t.chains
    requires DirsKept(g, v, t, v', TreeAfterAdd(t, d, added, it.slot, c), {d})
    requires c != 0 ==> Shown(g, v', [c]) == dots
    ensures AllListings(g, v', TreeAfterAdd(t, d, added, it.slot, c)) == Added(AllListings(g, v, t), d, it, c, dots)
  {
    hide Shown, DataKept, IsChain, VolOk, AllTo;
  }

  lemma AddedGrows(t: Tree, d: nat, added: seq<nat>, slot: nat, c: nat)
    requires d in t.depth && d in t.chains && c !in t.chains && 0 !in t.chains
    ensures GrowsBy(t, TreeAfterAdd(t, d, added, slot, c), d, slot, c)
  {
    hide AllTo;
  }

  /** An entry was added: an empty file, or a directory that lists only its dot entries. */
  lemma FsckAdd(g: Geometry, v: Vol, v': Vol, t: Tree, d: nat, added: seq<nat>, it: Item, c: nat, dots: seq<Item>)
    requires Fsck(g, v, t) && d in t.depth && d in t.chains && EntryGrown(g, v, v', t, d, added, it, c)
             && c !in t.chains
    requires AddedOk(Shown(g, v, t.chains[d]), it, c)
    requires SlotsDistinct(dots) && OnlyDots(dots) && (c != 0 ==> Shown(g, v', [c]) == dots)
    ensures var t' := TreeAfterAdd(t, d, added, it.slot, c);
            Fsck(g, v', t') && FilesKept(g, v, t, v', t', {}) && DirsKept(g, v, t, v', t', {d})
  {
    hide Stored, Shown, DataKept, IsPath, HeadsOk, MembersOk, CoverOk, FilesKept, DirsKept, DirOk, OwnerOk, AllTo,
      AddedOk, OnlyDots, SlotsDistinct;
    AddedChainsOk(g, v, v', t, d, added, it, c);
    AddedKept(g, v, v', t, d, added, it, c);
    ListingsAdded(g, v, v', t, d, added, it, c, dots);
    AddedGrows(t, d, added, it.slot, c);
    EntryAdded(g.root, g.ClusterBytes(), t, TreeAfterAdd(t, d, added, it.slot, c), AllListings(g, v, t), d, it, c,
      dots);
  }

  // ------------------------------------------------------------- file bytes

  /** The contents of the file that an entry names. */
  ghost function FileBytes(g: Geometry, v: Vol, t: Tree, it: Item): seq<Byte>
  {
    Prefix(Stored(g, v, ChainOr(t, it.first)), it.size)
  }

  function Prefix<T>(b: seq<T>, n: nat): seq<T> { if n <= |b| then b[..n] else b }

  function Max(a: nat, b: nat): nat { if a < b then b else a }

  /** `old` zero-extended as far as needed and overwritten with `data` at `offset`. */
  function Overwritten(before: seq<Byte>, offset: nat, data: seq<Byte>): (r: seq<Byte>)
    ensures |r| == Max(|before|, offset + |data|)
    ensures forall i | 0 <= i < |r| ::
              r[i] == if offset <= i < offset + |data| then data[i - offset] else if i < |before| then before[i] else 0
  {
    Splice(before + Zeros(Max(|before|, offset + |data|) - |before|), offset, data)
  }

  /** Zeroing the gap and then writing the data makes the file read as overwritten. */
  lemma WriteMeansOverwrite(b: seq<Byte>, size: nat, offset: nat, data: seq<Byte>, b1: seq<Byte>, b2: seq<Byte>)
    requires size <= |b| && offset + |data| <= |b|
    requires b1 == if offset > size then Splice(b, size, Zeros(offset - size)) else b
    requires b2 == Splice(b1, offset, data)
    ensures |b2| == |b| && b2[..Max(size, offset + |data|)] == Overwritten(b[..size], offset, data)
  {
  }

  /** `chain'` is `chain`, extended no further than `bytes` bytes need. */
  ghost predicate GrewTo(g: Geometry, chain: seq<nat>, chain': seq<nat>, bytes: nat)
  {
    && chain <= chain' && bytes <= Row(|chain'|, g.ClusterBytes())
    && (chain' == chain || Row(|chain'| - 1, g.ClusterBytes()) < bytes)
  }

  /** A write happened: the first entry called `name` of `d` was rewritten, its file reads as
      overwritten, and nothing else changed. */
  ghost predicate WroteFile(g: Geometry, v: Vol, t: Tree, v': Vol, t': Tree, d: nat, name: seq<nat>, offset: nat,
                            data: seq<Byte>)
    requires d in t.chains
  {
    var items, items' := Shown(g, v, t.chains[d]), Shown(g, v', t.chains[d]);
    var p := FindItem(items, name, 0);
    && p < |items| == |items'| && !items[p].isDir && t'.depth == t.depth && d in t'.chains
       && t'.chains[d] == t.chains[d]
    && items' == items[p := NewItem(items[p], items'[p].first, Max(items[p].size, offset + |data|))]
    && FileBytes(g, v', t', items'[p]) == Overwritten(FileBytes(g, v, t, items[p]), offset, data)
    && GrewTo(g, ChainOr(t, items[p].first), ChainOr(t', items'[p].first), Max(items[p].size, offset + |data|))
    && FilesKept(g, v, t, v', t', {items'[p].first}) && DirsKept(g, v, t, v', t', {d})
  }

  /** Exactly the clusters of `chain` became free; every other table entry is as before. */
  ghost predicate OnlyFreed(v: Vol, v': Vol, chain: seq<nat>)
  {
    |v'.fat| == |v.fat| && forall c | 0 <= c < |v.fat| :: v'.fat[c] == if c in chain then 0 else v.fat[c]
  }

  /** The file called `name` of `d` was emptied and nothing else changed. */
  ghost predicate TruncatedFile(g: Geometry, v: Vol, t: Tree, v': Vol, t': Tree, d: nat, name: seq<nat>)
    requires d in t.chains
  {
    var items := Shown(g, v, t.chains[d]);
    var p := FindItem(items, name, 0);
    && p < |items| && !items[p].isDir && t'.depth == t.depth
    && Shown(g, v', t.chains[d]) == items[p := NewItem(items[p], 0, 0)]
    && FilesKept(g, v, t, v', t', {items[p].first}) && DirsKept(g, v, t, v', t', {d})
    && OnlyFreed(v, v', ChainOr(t, items[p].first))
  }

  /** Slot `i` is slot `k`, or holds the first of live long-name records that lead up to it. */
  ghost predicate BelongsTo(slots: seq<Slot>, i: nat, k: nat)
    requires i < |slots| && k < |slots|
  {
    i <= k && forall j | i <= j < k :: slots[j][0] != 0xe5 && slots[j][11] == 0x0f
  }

  /** The short record at `k` and its long-name records were marked deleted, in their first bytes, and no other
      byte of the directory changed. */
  ghost predicate OnlyUnlinked(slots: seq<Slot>, slots': seq<Slot>, k: nat)
  {
    && k < |slots| == |slots'|
    && forall i | 0 <= i < |slots| :: slots'[i] == if BelongsTo(slots, i, k) then slots[i][0 := 0xe5] else slots[i]
  }

  /** The entry called `name` of `d` was removed and nothing else changed. */
  ghost predicate RemovedEntry(g: Geometry, v: Vol, t: Tree, v': Vol, t': Tree, d: nat, name: seq<nat>)
    requires d in t.chains
  {
    var items := Shown(g, v, t.chains[d]);
    var p := FindItem(items, name, 0);
    && p < |items| && Shown(g, v', t.chains[d]) == Without(items, p)
    && FilesKept(g, v, t, v', t', {items[p].first}) && DirsKept(g, v, t, v', t', {d, items[p].first})
    && items[p].first !in t'.chains && OnlyFreed(v, v', ChainOr(t, items[p].first))
    && OnlyUnlinked(SlotsIn(g, v, t.chains[d]), SlotsIn(g, v', t.chains[d]), items[p].slot)
  }

  /** `d` lists one more entry, `it`, and no other file or directory changed. */
  ghost predicate AddedEntry(g: Geometry, v: Vol, t: Tree, v': Vol, t': Tree, d: nat, it: Item)
    requires d in t.chains && d in t'.chains
  {
    && Shown(g, v', t'.chains[d]) == Shown(g, v, t.chains[d]) + [it]
    && FilesKept(g, v, t, v', t', {}) && DirsKept(g, v, t, v', t', {d})
  }

  /** Free space, chains up to their end marks, every listing and every file are what they were. */
  ghost predicate Unharmed(g: Geometry, v: Vol, t: Tree, v': Vol)
  {
    SameChains(v.fat, v'.fat) && FilesKept(g, v, t, v', t, {}) && DirsKept(g, v, t, v', t, {})
  }
}
