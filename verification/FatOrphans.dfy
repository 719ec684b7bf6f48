/** Directories whose name lists as "." or "..": the entry is skipped like a dot entry, so nothing
    names the new directory's cluster and the volume fails its check. */
module FatOrphans {
  import opened Bytes
  import opened FatChains
  import opened FatLayout
  import opened FatDirectory
  import opened FatNames
  import opened FatTree
  import opened FatVolume
  import opened FatFsck
  import opened FatSteps
  import opened FatWrite
  import opened FatCreate

  /** Only a name with a 0xFFFF unit can list as a dot entry, and one such name is accepted. */
  lemma DotInDisguise(name: seq<nat>, short: seq<Byte>)
    requires NameOk(name) && Acceptable(name) && |short| == 11
    ensures IsDot(ListedName(name, short)) ==> exists i :: 0 <= i < |name| && name[i] == 0xffff
    ensures NameOk([0x2e, 0xffff]) && Acceptable([0x2e, 0xffff]) && ListedName([0x2e, 0xffff], short) == [0x2e]
  {
    ListedAsItself(name, short);
    assert NameEnd([0x2e, 0xffff], 0) == 1;
  }

  /** The volume after an entry `it` that reads as a dot entry was added to directory `d` for the new
      directory cluster `c`. */
  ghost predicate Orphaning(g: Geometry, v: Vol, v': Vol, t: Tree, d: nat, added: seq<nat>, it: Item, c: nat)
  {
    && Fsck(g, v, t) && d in t.depth && d in t.chains && EntryGrown(g, v, v', t, d, added, it, c)
    && c != 0 && c !in t.chains && IsDot(it.name)
  }

  /** The old chains, that of `d` as grown, are the chains of the new table and miss `c`. */
  lemma OldChains(g: Geometry, v: Vol, v': Vol, t: Tree, d: nat, added: seq<nat>, it: Item, c: nat, t2: Tree, h: nat)
    requires Orphaning(g, v, v', t, d, added, it, c) && HeadsOk(v'.fat, t2) && h in t2.chains && h in t.chains
    ensures t2.chains[h] == (if h == d then t.chains[d] + added else t.chains[h]) && c !in t2.chains[h]
  {
    hide TreeOk, IsChain, DataKept, Shown, VolOk;
    var ta := TreeAfterAdd(t, d, added, it.slot, c);
    AddedChainsOk(g, v, v', t, d, added, it, c);
    ChainUnique(v'.fat, t2.chains[h], ta.chains[h]);
    assert ta.chains[c] == [c] && ta.chains[c][0] == c;
  }

  /** A directory of both trees names nothing but what it named before. */
  lemma OldItem(g: Geometry, v: Vol, v': Vol, t: Tree, d: nat, added: seq<nat>, it: Item, c: nat, t2: Tree, y: nat,
                p: nat)
    requires Orphaning(g, v, v', t, d, added, it, c) && Fsck(g, v', t2) && y in t2.depth && y in t.depth
    requires p < |AllListings(g, v', t2)[y]| && !IsDot(AllListings(g, v', t2)[y][p].name)
    ensures p < |AllListings(g, v, t)[y]| && AllListings(g, v, t)[y][p] == AllListings(g, v', t2)[y][p]
  {
    hide TreeOk, IsChain, DataKept, Shown, VolOk, MembersOk, CoverOk, HeadsOk, FilesKept;
    OldChains(g, v, v', t, d, added, it, c, t2, y);
    AddedKept(g, v, v', t, d, added, it, c);
    var items, items' := AllListings(g, v, t)[y], AllListings(g, v', t2)[y];
    assert items' == if y == d then items + [it] else items;
  }

  /** The entry that owns chain `h` of a checked tree. */
  lemma OwnerItem(g: Geometry, v: Vol, t: Tree, h: nat) returns (y: nat, p: nat)
    requires Fsck(g, v, t) && h in t.chains && h != g.root
    ensures y in t.depth && y in AllListings(g, v, t) && p < |AllListings(g, v, t)[y]|
    ensures var it := AllListings(g, v, t)[y][p];
            it.first == h != 0 && !IsDot(it.name)
            && (h in t.depth ==> it.isDir && t.depth[h] == t.depth[y] + 1)
  {
    hide ChainsOk, Shown, VolOk;
    var ls := AllListings(g, v, t);
    y := t.owner[h].0;
    assert OwnerOk(t, ls, h);
    p :| 0 <= p < |ls[y]| && ls[y][p].slot == t.owner[h].1 && ls[y][p].first == h && !IsDot(ls[y][p].name);
    GetItem(g.root, g.ClusterBytes(), t, ls, y, p);
  }

  /** Every directory that a check could still reach was one before. */
  lemma {:induction false} OldDirs(g: Geometry, v: Vol, v': Vol, t: Tree, d: nat, added: seq<nat>, it: Item, c: nat,
                                   t2: Tree, x: nat)
    requires Orphaning(g, v, v', t, d, added, it, c) && Fsck(g, v', t2) && x in t2.depth
    ensures x in t.depth
    decreases t2.depth[x]
  {
    hide ChainsOk, Shown, VolOk, EntryGrown, DirOk, OwnerOk;
    if x != g.root {
      var y, p := OwnerItem(g, v', t2, x);
      OldDirs(g, v, v', t, d, added, it, c, t2, y);
      OldItem(g, v, v', t, d, added, it, c, t2, y, p);
      GetItem(g.root, g.ClusterBytes(), t, AllListings(g, v, t), y, p);
    }
  }

  /** Every chain that a check could still reach was one before. */
  lemma OldHeads(g: Geometry, v: Vol, v': Vol, t: Tree, d: nat, added: seq<nat>, it: Item, c: nat, t2: Tree, h: nat)
    requires Orphaning(g, v, v', t, d, added, it, c) && Fsck(g, v', t2) && h in t2.chains
    ensures h in t.chains
  {
    hide ChainsOk, Shown, VolOk, EntryGrown, DirOk, OwnerOk;
    if h != g.root {
      var y, p := OwnerItem(g, v', t2, h);
      OldDirs(g, v, v', t, d, added, it, c, t2, y);
      OldItem(g, v, v', t, d, added, it, c, t2, y, p);
      GetItem(g.root, g.ClusterBytes(), t, AllListings(g, v, t), y, p);
    }
  }

  lemma NewInUse(g: Geometry, v: Vol, v': Vol, t: Tree, d: nat, added: seq<nat>, it: Item, c: nat)
    requires Orphaning(g, v, v', t, d, added, it, c)
    ensures 2 <= c < |v'.fat| && InUse(v'.fat[c])
  {
    hide Shown, VolOk, TreeOk, DataKept, Fsck;
    assert IsChain(v'.fat, [c]);
  }

  /** The new directory's cluster is in use but belongs to nothing: no bookkeeping makes the volume
      pass its check. */
  lemma NoCheckPasses(g: Geometry, v: Vol, v': Vol, t: Tree, d: nat, added: seq<nat>, it: Item, c: nat)
    requires Orphaning(g, v, v', t, d, added, it, c)
    ensures forall t2 :: !Fsck(g, v', t2)
  {
    hide Orphaning, VolOk, TreeOk, HeadsOk;
    forall t2 | Fsck(g, v', t2) ensures false {
      NewInUse(g, v, v', t, d, added, it, c);
      OldHeads(g, v, v', t, d, added, it, c, t2, t2.at[c]);
      OldChains(g, v, v', t, d, added, it, c, t2, t2.at[c]);
    }
  }

  lemma GrownVol(g: Geometry, v: Vol, v': Vol, t: Tree, d: nat, added: seq<nat>, it: Item, c: nat)
    requires d in t.chains && EntryGrown(g, v, v', t, d, added, it, c)
    ensures VolOk(g, v') && |v'.fat| == |v.fat|
  {
  }

  /** A directory was appended under a name that lists as a dot entry. */
  lemma DirOrphaned(g: Geometry, v: Vol, v2: Vol, v3: Vol, t: Tree, d: nat, added: seq<nat>, it: Item, c: nat)
    requires Fsck(g, v, t) && d in t.depth && d in t.chains && IsChain(v.fat, t.chains[d]) && VolOk(g, v)
    requires 2 <= c < |v.fat| && v.fat[c] == 0 && VolOk(g, v2) && d < |v.fat|
    requires v2 == Vol(v.fat[c := EOC], v.data[c := DirCluster(g.ClusterBytes(), c, d)]) && IsChain(v2.fat, t.chains[d])
    requires DirGrown(g, v2, v3, t.chains[d], added, it) && IsDot(it.name)
    ensures EntryGrown(g, v, v3, t, d, added, it, c) && DotItems(Shown(g, v3, [c]), c, d)
    ensures forall t2 :: !Fsck(g, v3, t2)
  {
    hide Shown, Slots, IsPath, Fsck, DirGrown, DirCluster, EntryGrown, DotItems;
    DirAppended(g, v, v2, v3, t, d, added, it, c, DirCluster(g.ClusterBytes(), c, d));
    GrownVol(g, v, v3, t, d, added, it, c);
    DirClusterListing(g, v3, c, d);
    NoCheckPasses(g, v, v3, t, d, added, it, c);
  }
}
