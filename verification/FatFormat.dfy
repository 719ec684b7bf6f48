/** The bytes of the FAT32 format (Microsoft FAT32 File System Specification, version 1.03), written out:
    what `mount` reads from a boot sector, where tables and clusters lie, how records are laid out. */
module FatFormat {
  import opened Bytes
  import opened Wrappers
  import opened Rows
  import opened FatLayout
  import opened FatContent
  import opened FatDirectory
  import opened FatNames
  import opened FatVolume
  import opened FatWrite

  // ------------------------------------------------------------ boot sector

  /** The fields of a boot sector that matter here. */
  datatype Boot = Boot(
    bytesPerSector: nat, sectorsPerCluster: nat, reserved: nat, tables: nat, rootEntries: nat, total16: nat,
    tableSectors16: nat, total32: nat, tableSectors: nat, root: nat, fsinfo: nat)

  /** The bytes between those fields. */
  datatype Rest = Rest(jump: seq<Byte>, media: Byte, disk: seq<Byte>, flags: seq<Byte>, code: seq<Byte>)

  predicate BootFits(x: Boot, y: Rest)
  {
    && x.bytesPerSector < 0x1_0000 && x.sectorsPerCluster < 0x100 && x.reserved < 0x1_0000 && x.tables < 0x100
    && x.rootEntries < 0x1_0000 && x.total16 < 0x1_0000 && x.tableSectors16 < 0x1_0000 && x.total32 < 0x1_0000_0000
    && x.tableSectors < 0x1_0000_0000 && x.root < 0x1_0000_0000 && x.fsinfo < 0x1_0000
    && |y.jump| == 11 && |y.disk| == 8 && |y.flags| == 4 && |y.code| == 460
  }

  /** The boot sector, field after field: the first 32 bytes and the others. */
  function WriteBoot(x: Boot, y: Rest): (b: seq<Byte>)
    requires BootFits(x, y)
    ensures |b| == SECTOR_SIZE
  {
    WriteFront(x, y) + WriteBack(x, y)
  }

  function WriteFront(x: Boot, y: Rest): (b: seq<Byte>)
    requires BootFits(x, y)
    ensures |b| == 32
  {
    y.jump + Le16(x.bytesPerSector) + [x.sectorsPerCluster] + Le16(x.reserved) + [x.tables] + Le16(x.rootEntries)
    + Le16(x.total16) + [y.media] + Le16(x.tableSectors16) + y.disk
  }

  function WriteBack(x: Boot, y: Rest): (b: seq<Byte>)
    requires BootFits(x, y)
    ensures |b| == 480
  {
    Le32(x.total32) + Le32(x.tableSectors) + y.flags + Le32(x.root) + Le16(x.fsinfo) + y.code + [0x55, 0xaa]
  }

  lemma BootParts(x: Boot, y: Rest)
    requires BootFits(x, y)
    ensures var b := WriteBoot(x, y);
            && b[11..13] == Le16(x.bytesPerSector) && b[13] == x.sectorsPerCluster && b[14..16] == Le16(x.reserved)
            && b[16] == x.tables && b[17..19] == Le16(x.rootEntries) && b[19..21] == Le16(x.total16)
            && b[22..24] == Le16(x.tableSectors16) && b[32..36] == Le32(x.total32) && b[36..40] == Le32(x.tableSectors)
            && b[44..48] == Le32(x.root) && b[48..50] == Le16(x.fsinfo) && b[510] == 0x55 && b[511] == 0xaa
  {
    hide Le16, Le32, WriteFront, WriteBack;
    FrontParts(x, y);
    BackParts(x, y);
    var b, f, t := WriteBoot(x, y), WriteFront(x, y), WriteBack(x, y);
    assert b[..32] == f && b[32..] == t;
    assert b[11..13] == f[11..13] && b[14..16] == f[14..16] && b[17..19] == f[17..19];
    assert b[19..21] == f[19..21] && b[22..24] == f[22..24];
    assert b[32..36] == t[..4] && b[36..40] == t[4..8] && b[44..48] == t[12..16] && b[48..50] == t[16..18];
  }

  lemma FrontParts(x: Boot, y: Rest)
    requires BootFits(x, y)
    ensures var f := WriteFront(x, y);
            && f[11..13] == Le16(x.bytesPerSector) && f[13] == x.sectorsPerCluster && f[14..16] == Le16(x.reserved)
            && f[16] == x.tables && f[17..19] == Le16(x.rootEntries) && f[19..21] == Le16(x.total16)
            && f[22..24] == Le16(x.tableSectors16)
  {
    hide Le16;
  }

  lemma BackParts(x: Boot, y: Rest)
    requires BootFits(x, y)
    ensures var t := WriteBack(x, y);
            && t[..4] == Le32(x.total32) && t[4..8] == Le32(x.tableSectors) && t[12..16] == Le32(x.root)
            && t[16..18] == Le16(x.fsinfo) && t[478] == 0x55 && t[479] == 0xaa
  {
    hide Le16, Le32;
  }

  lemma BootReads(x: Boot, y: Rest)
    requires BootFits(x, y)
    ensures var b := WriteBoot(x, y);
            && U16(b, 11) == x.bytesPerSector && b[13] == x.sectorsPerCluster && U16(b, 14) == x.reserved
            && b[16] == x.tables && U16(b, 17) == x.rootEntries && U16(b, 19) == x.total16
            && U16(b, 22) == x.tableSectors16 && U32(b, 32) == x.total32 && U32(b, 36) == x.tableSectors
            && U32(b, 44) == x.root && U16(b, 48) == x.fsinfo && b[510] == 0x55 && b[511] == 0xaa
  {
    hide U16, U32, Le16, Le32, WriteBoot;
    var b := WriteBoot(x, y);
    BootParts(x, y);
    U16Slice(b, 11);
    U16Slice(b, 14);
    U16Slice(b, 17);
    U16Slice(b, 19);
    U16Slice(b, 22);
    U32Slice(b, 32);
    U32Slice(b, 36);
    U32Slice(b, 44);
    U16Slice(b, 48);
  }

  function Total(x: Boot): nat { if x.total16 != 0 then x.total16 else x.total32 }

  /** First sector behind the tables. */
  function TablesEnd(x: Boot): nat { x.reserved + x.tables * x.tableSectors }

  function Clusters(x: Boot): nat
    requires x.sectorsPerCluster > 0
  {
    if TablesEnd(x) <= Total(x) then (Total(x) - TablesEnd(x)) / x.sectorsPerCluster else 0
  }

  /** A volume of the supported kind that fits on the device. */
  predicate Supported(x: Boot, sectors: nat)
  {
    && x.bytesPerSector == 512 && x.sectorsPerCluster in {1, 2, 4, 8, 16, 32, 64, 128} && x.reserved > 0
    && x.tables > 0 && x.tableSectors > 0 && x.rootEntries == 0 && x.tableSectors16 == 0 && Total(x) <= sectors
  }

  /** The tables leave room for clusters, have an entry for each, and the root is one of them. */
  predicate Consistent(x: Boot)
    requires x.sectorsPerCluster > 0
  {
    && TablesEnd(x) < Total(x) && 1 <= Clusters(x) <= 0x0fff_fff5 && Clusters(x) + 2 <= x.tableSectors * 128
    && 2 <= x.root % 0x1000_0000 < Clusters(x) + 2
  }

  /** `mount` on every boot sector with its signature: what it refuses and why, and the geometry it takes from
      the fields otherwise. */
  lemma MountReads(x: Boot, y: Rest, sectors: nat)
    requires BootFits(x, y)
    ensures Mount(WriteBoot(x, y), sectors) ==
              if !Supported(x, sectors) then Err(Unsupported)
              else if !Consistent(x) then Err(InvalidBootSector)
              else Ok(Geometry(x.sectorsPerCluster, x.reserved, x.tables, x.tableSectors, x.root % 0x1000_0000,
                               Clusters(x), if 0 < x.fsinfo < x.reserved then Some(x.fsinfo) else None))
  {
    hide U16, U32, WriteBoot, Row;
    BootReads(x, y);
    RowIsProduct(x.tables, x.tableSectors);
  }

  /** Without the signature there is no volume. */
  lemma NoSignature(b: seq<Byte>, sectors: nat)
    requires |b| == SECTOR_SIZE && (b[510] != 0x55 || b[511] != 0xaa)
    ensures Mount(b, sectors) == Err(InvalidBootSector)
  {
  }

  // ------------------------------------------------------ tables and clusters

  /** The sector that holds byte `o` of cluster `c`. */
  function SectorOf(g: Geometry, c: nat, o: nat): int
  {
    g.reserved + g.fatCount * g.sectorsPerFat + (c - 2) * g.sectorsPerCluster + o / 512
  }

  /** Byte `o` of cluster `c`, by its place on the disk. */
  lemma ClusterByte(g: Geometry, disk: Disk, c: nat, o: nat)
    requires g.Valid() && Fits(g, disk) && 2 <= c < g.count + 2 && o < g.ClusterBytes()
    ensures 0 <= SectorOf(g, c, o) < |disk| && ClusterOf(g, disk, c)[o] == disk[SectorOf(g, c, o)][o % 512]
  {
    hide Row, Join;
    RowIsProduct(g.fatCount, g.sectorsPerFat);
    RowIsProduct(c - 2, g.sectorsPerCluster);
    ClusterLbaBound(g, c, g.sectorsPerCluster - 1);
    assert o / 512 < g.sectorsPerCluster && o == o / 512 * 512 + o % 512;
    JoinAt(disk, g.ClusterLba(c), g.sectorsPerCluster, o / 512, o % 512);
  }

  /** The entry of cluster `c` in copy `k` of the table, by its place on the disk. */
  lemma TableEntry(g: Geometry, disk: Disk, k: nat, c: nat)
    requires g.Valid() && Fits(g, disk) && k < g.fatCount && c < g.count + 2
    ensures var lba, at := g.reserved + k * g.sectorsPerFat + c * 4 / 512, c * 4 % 512;
            && lba < |disk| && at + 4 <= |disk[lba]|
            && Entry(g, disk, k, c) ==
                 ((disk[lba][at] as int) + 0x100 * (disk[lba][at + 1] as int) + 0x1_0000 * (disk[lba][at + 2] as int)
                  + 0x100_0000 * (disk[lba][at + 3] as int)) % 0x1000_0000
  {
    hide Row;
    RowIsProduct(k, g.sectorsPerFat);
    FatLbaBound(g, k, c / ENTRIES_PER_SECTOR);
    assert c * 4 / 512 == c / ENTRIES_PER_SECTOR && c * 4 % 512 == c % ENTRIES_PER_SECTOR * 4;
    LittleEndian(disk[g.FatLba(k, c / ENTRIES_PER_SECTOR)], c * 4 % 512);
  }

  // ----------------------------------------------------------------- records

  /** First cluster and size in a short record. */
  lemma MetadataBytes(e: Slot, first: nat, size: nat)
    requires first < 0x1_0000_0000 && size < 0x1_0000_0000
    ensures var r := WithMetadata(e, first, size);
            && r[20..22] == Le16(first / 0x1_0000) && r[26..28] == Le16(first % 0x1_0000) && r[28..32] == Le32(size)
            && r[..20] == e[..20] && r[22..26] == e[22..26]
  {
    hide Le16, Le32;
  }

  /** Which slots list an entry: those before the first zero first byte that are neither deleted (0xE5), nor a
      long-name record (attributes 0x0F), nor a volume label (attribute bit 3). */
  lemma ListsIff(slots: seq<Slot>, k: nat)
    requires k < |slots|
    ensures Lists(slots, k) <==>
            && (forall i | 0 <= i <= k :: slots[i][0] != 0)
            && slots[k][0] != 0xe5 && slots[k][11] != 0x0f && slots[k][11] / 8 % 2 == 0
  {
    hide Step;
    RunEndsIff(slots, k);
  }

  /** What a listed entry says: attribute bit 4 tells directories, four bytes are the size and twice two bytes
      the first cluster; the name is short unless a long one was collected. */
  lemma ItemBytes(slots: seq<Slot>, k: nat)
    requires k < |slots|
    ensures var it, e := ItemAt(slots, k), slots[k];
            && it.slot == k && (it.isDir <==> e[11] / 16 % 2 == 1)
            && it.size == (e[28] as int) + 0x100 * (e[29] as int) + 0x1_0000 * (e[30] as int)
               + 0x100_0000 * (e[31] as int)
            && it.first == (e[26] as int) + 0x100 * (e[27] as int) + 0x1_0000 * (e[20] as int)
               + 0x100_0000 * (e[21] as int)
            && (!Run(slots, k).have ==> it.name == ShortName(e))
  {
    hide Run, ShortName;
    LittleEndian(slots[k], 28);
  }

  /** A short name of a base and an extension without spaces, padded to eight and three bytes. */
  lemma ShortNameReads(base: seq<Byte>, ext: seq<Byte>)
    requires |base| <= 8 && |ext| <= 3 && (forall i | 0 <= i < |base| :: base[i] != 0x20)
    requires forall i | 0 <= i < |ext| :: ext[i] != 0x20
    ensures var name := ShortName(base + seq(8 - |base|, _ => 0x20) + ext + seq(3 - |ext|, _ => 0x20));
            name == Units(base) + (if ext == [] then [] else [0x2e] + Units(ext))
  {
    var e := base + seq(8 - |base|, _ => 0x20) + ext + seq(3 - |ext|, _ => 0x20);
    assert e[..8] == base + seq(8 - |base|, _ => 0x20) && e[8..11] == ext + seq(3 - |ext|, _ => 0x20);
    UntilPadding(base, 8 - |base|);
    UntilPadding(ext, 3 - |ext|);
  }

  function Units(b: seq<Byte>): seq<nat> { seq(|b|, i requires 0 <= i < |b| => b[i] as nat) }

  lemma {:induction false} UntilPadding(b: seq<Byte>, n: nat)
    requires forall i | 0 <= i < |b| :: b[i] != 0x20
    ensures UntilSpace(b + seq(n, _ => 0x20)) == Units(b)
    decreases |b|
  {
    var p: seq<Byte> := b + seq(n, _ => 0x20);
    if b == [] {
      assert n > 0 ==> p[0] == 0x20;
    } else {
      assert p[1..] == b[1..] + seq(n, _ => 0x20);
      UntilPadding(b[1..], n);
      assert Units(b) == [b[0] as nat] + Units(b[1..]);
    }
  }

  /** Names compare unit by unit; an ASCII letter equals itself in the other case. */
  lemma SameNameIff(a: seq<nat>, b: seq<nat>)
    ensures SameName(a, b) <==>
            |a| == |b| && forall i | 0 <= i < |a| ::
              a[i] == b[i] || (0x41 <= a[i] <= 0x5a && b[i] == a[i] + 0x20)
                || (0x41 <= b[i] <= 0x5a && a[i] == b[i] + 0x20)
  {
  }

  /** What is returned of a listing: every item but those called "." or "..", once each ... */
  lemma {:induction false} NonDotIff(items: seq<Item>, it: Item)
    ensures multiset(NonDot(items))[it] ==
              if it.name == [0x2e] || it.name == [0x2e, 0x2e] then 0 else multiset(items)[it]
  {
    if items != [] {
      var init, last := items[..|items| - 1], items[|items| - 1];
      NonDotIff(init, it);
      assert items == init + [last];
      assert multiset(items) == multiset(init) + multiset{last};
      assert multiset(NonDot(init) + [last]) == multiset(NonDot(init)) + multiset{last};
    }
  }

  /** ... and in order of their slots. */
  lemma {:induction false} NonDotOrder(items: seq<Item>)
    requires SlotsAscend(items)
    ensures SlotsAscend(NonDot(items)) && |NonDot(items)| <= |items|
    ensures forall i | 0 <= i < |NonDot(items)| :: NonDot(items)[i].slot <= items[|items| - 1].slot
  {
    if items != [] {
      var init := items[..|items| - 1];
      NonDotOrder(init);
      assert init != [] ==> init[|init| - 1].slot < items[|items| - 1].slot;
    }
  }

  ghost predicate SlotsAscend(items: seq<Item>) { forall i, j | 0 <= i < j < |items| :: items[i].slot < items[j].slot }

  /** What a name may not hold, in characters. */
  lemma ForbiddenUnits(u: nat)
    requires u < 0x80
    ensures Forbidden(u) <==> u < 0x20 || (u as char) in "\"*/:<>?\\|"
  {
  }

  lemma NamesRefused(name: seq<nat>)
    requires forall i | 0 <= i < |name| :: name[i] < 0x80
    ensures NameOk(name) <==>
            && name != [] && name != [('.' as nat)] && name != ['.' as nat, '.' as nat]
            && name[|name| - 1] != '.' as nat && name[|name| - 1] != ' ' as nat
            && forall i | 0 <= i < |name| :: (name[i] as char) !in "\\:*?\"<>|"
  {
  }

  /** The thirteen units of a long-name record. */
  lemma UnitPositions()
    ensures seq(13, i requires 0 <= i < 13 => Position(i)) == [1, 3, 5, 7, 9, 14, 16, 18, 20, 22, 24, 28, 30]
  {
  }

  /** A long-name record, byte by byte: the lead byte is the part's number, with bit 6 on the last part; then the
      attributes, type, checksum and cluster; the units behind the name are a zero and then all ones. */
  lemma RecordBytes(e: Slot, units: seq<nat>, order: nat, count: nat, checksum: Byte)
    requires 1 <= order <= count <= 20 && IsRecord(e, units, order, count, checksum)
    ensures (e[0] as int) == order + (if order == count then 0x40 else 0)
    ensures e[11..14] == [0x0f, 0, checksum] && e[26..28] == [0, 0]
    ensures var at := [1, 3, 5, 7, 9, 14, 16, 18, 20, 22, 24, 28, 30];
            forall i | 0 <= i < 13 ::
              var n := (order - 1) * 13 + i;
              && (n < |units| ==> U16(e, at[i]) == units[n])
              && (n >= |units| ==> U16(e, at[i]) == if n == |units| then 0 else 0xffff)
  {
    hide U16;
    UnitPositions();
    var at := [1, 3, 5, 7, 9, 14, 16, 18, 20, 22, 24, 28, 30];
    assert at == seq(13, i requires 0 <= i < 13 => Position(i));
    forall i | 0 <= i < 13 ensures at[i] == Position(i) {
      assert at[i] == seq(13, i requires 0 <= i < 13 => Position(i))[i];
    }
  }

  /** Each step of the short name's checksum rotates the sum right by one bit and adds the byte: `turned` has
      the lowest bit of the sum on top and the upper seven below it. */
  lemma ChecksumRotates(sum: Byte, turned: Byte, x: Byte)
    requires (turned as int) / 128 == (sum as int) % 2 && (turned as int) % 128 == (sum as int) / 2
    ensures (ChecksumStep(sum, x) as int) == ((turned as int) + (x as int)) % 256
  {
  }

  /** The checksum of a name is that of its other bytes, stepped on by the last. */
  lemma ChecksumLast(name: seq<Byte>, x: Byte)
    ensures Checksum([]) == 0 && Checksum(name + [x]) == ChecksumStep(Checksum(name), x)
  {
    assert (name + [x])[..|name|] == name;
  }
}
