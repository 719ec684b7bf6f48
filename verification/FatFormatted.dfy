/** Volumes at the edges: a freshly formatted one, which passes the check, and a boot sector that
    `mount` accepts although some of its clusters cannot be linked. */
module FatFormatted {
  import opened Bytes
  import opened Wrappers
  import opened Rows
  import opened FatChains
  import opened FatLayout
  import opened FatContent
  import opened FatDirectory
  import opened FatTree
  import opened FatVolume

  /** Nothing but an empty root directory of one cluster. */
  ghost predicate Formatted(g: Geometry, v: Vol)
  {
    && VolOk(g, v) && (forall c | 2 <= c < |v.fat| :: v.fat[c] == if c == g.root then EOC else 0)
    && v.data[g.root][0] == 0
  }

  ghost function RootOnly(root: nat): Tree { Tree(map[root := [root]], map[root := root], map[root := 0], map[]) }

  /** A freshly formatted volume passes the check. */
  lemma FormattedPasses(g: Geometry, v: Vol)
    requires Formatted(g, v)
    ensures Fsck(g, v, RootOnly(g.root))
  {
    hide Row, Shown, ChainsOk, TreeOk;
    EmptyListing(g, v, g.root);
    RootChain(v.fat, g.root);
    RootTree(g.root, g.ClusterBytes());
    assert AllListings(g, v, RootOnly(g.root)) == map[g.root := []];
  }

  lemma RootTree(root: nat, size: nat)
    requires root != 0
    ensures TreeOk(root, size, RootOnly(root), map[root := []])
  {
  }

  lemma RootChain(fat: seq<nat>, root: nat)
    requires 2 <= root < |fat| && forall c | 2 <= c < |fat| :: fat[c] == if c == root then EOC else 0
    ensures ChainsOk(fat, RootOnly(root))
  {
  }

  /** Every geometry that `mount` accepts has such a volume. */
  lemma CanFormat(g: Geometry)
    requires g.Valid()
    ensures exists v :: Formatted(g, v) && Fsck(g, v, RootOnly(g.root))
  {
    hide Fsck;
    var fat: seq<nat> := seq(g.count + 2, c requires 0 <= c => if c == g.root then EOC else 0);
    var data: seq<seq<Byte>> := seq(g.count + 2, c requires 0 <= c => Zeros(g.ClusterBytes()));
    var v := Vol(fat, data);
    assert forall c | 0 <= c < |v.data| :: v.data[c] == Zeros(g.ClusterBytes());
    assert g.ClusterBytes() > 0;
    assert Formatted(g, v);
    FormattedPasses(g, v);
  }

  lemma EmptyListing(g: Geometry, v: Vol, c: nat)
    requires VolOk(g, v) && 2 <= c < |v.fat| && v.data[c][0] == 0
    ensures Shown(g, v, [c]) == []
  {
    hide Listing, Slots, Row;
    SlotRead(g, v, [c], 0, 0);
    var slots := Slots(g, v, [c]);
    RowOnce(SlotsPerCluster(g));
    assert slots[0][0] == 0;
    EndedAt(slots, 0);
  }

  // ------------------------------------------------------------ too large

  /** Byte `i` of a boot sector for one-sector clusters, 32 reserved sectors, one table of 0x200000
      sectors, root cluster 2, and 0x10200015 sectors in all. */
  function LargeBootByte(i: nat): Byte
  {
    if i == 12 then 2 else if i == 13 then 1 else if i == 14 then 32 else if i == 16 then 1
    else if i == 32 then 0x15 else if i == 34 then 0x20 else if i == 35 then 0x10
    else if i == 38 then 0x20 else if i == 44 then 2 else if i == 510 then 0x55 else if i == 511 then 0xaa else 0
  }

  function LargeBootSector(): (b: seq<Byte>)
    ensures |b| == SECTOR_SIZE
  {
    seq(SECTOR_SIZE, i requires 0 <= i => LargeBootByte(i))
  }

  /** `mount` bounds the cluster count by 0x0FFFFFF5, links only reach below 0x0FFFFFF0: it accepts a
      volume with clusters that the reader of links calls broken. */
  lemma AcceptedButNotLinkable()
    ensures var r := Mount(LargeBootSector(), 0x1020_0015);
            r.Ok? && r.value.count == 0x0fff_fff5 && !Linkable(r.value)
  {
    hide Row;
    var b := LargeBootSector();
    assert U16(b, 11) == SECTOR_SIZE && U16(b, 14) == 32 && U32(b, 32) == 0x1020_0015 && U32(b, 36) == 0x20_0000;
    assert U32(b, 44) == 2;
    assert Row(1, 0x20_0000) == 0x20_0000 by {
      RowOnce(0x20_0000);
    }
  }

  lemma RowOnce(n: nat)
    ensures Row(1, n) == n && Row(0, n) == 0
  {
  }
}
