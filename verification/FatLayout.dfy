/** Where a FAT32 volume keeps its tables and clusters, and what a disk image says about both.

    A disk is a sequence of 512-byte sectors. `FatOf` and `DataOf` read the allocation table and
    the cluster contents out of it; the lemmas here say how one sector write changes them. */
module FatLayout {
  import opened Bytes
  import opened Wrappers
  import opened FatChains
  import opened Rows

  const SECTOR_SIZE: nat := 512
  const ENTRIES_PER_SECTOR: nat := 128

  datatype FatError = Io | InvalidBootSector | Unsupported | Corrupt | NotFound | NotDirectory
    | IsDirectory | TooLarge | NoSpace | InvalidName | AlreadyExists | DirectoryNotEmpty

  datatype Geometry = Geometry(
    sectorsPerCluster: nat,
    reserved: nat,
    fatCount: nat,
    sectorsPerFat: nat,
    root: nat,
    count: nat,
    fsinfo: Option<nat>)
  {
    function DataStart(): nat { reserved + Row(fatCount, sectorsPerFat) }

    function ClusterBytes(): nat { sectorsPerCluster * SECTOR_SIZE }

    /** First sector of cluster `c`. */
    function ClusterLba(c: nat): nat
      requires c >= 2
    {
      DataStart() + Row(c - 2, sectorsPerCluster)
    }

    /** Sector `s` of table copy `k`. */
    function FatLba(k: nat, s: nat): nat { reserved + Row(k, sectorsPerFat) + s }

    function Sectors(): nat { DataStart() + Row(count, sectorsPerCluster) }

    /** What `mount` establishes. */
    predicate Valid()
    {
      && sectorsPerCluster > 0 && reserved > 0 && fatCount > 0 && sectorsPerFat > 0
      && 1 <= count <= 0x0fff_fff5
      && count + 2 <= sectorsPerFat * ENTRIES_PER_SECTOR
      && 2 <= root < count + 2
      && (fsinfo.Some? ==> 0 < fsinfo.value < reserved)
    }
  }

  type Disk = seq<seq<Byte>>

  ghost predicate Fits(g: Geometry, disk: Disk)
  {
    g.Sectors() <= |disk| && forall i | 0 <= i < |disk| :: |disk[i]| == SECTOR_SIZE
  }

  // ------------------------------------------------------------------ mount

  predicate PowerOfTwoByte(v: nat)
  {
    v == 1 || v == 2 || v == 4 || v == 8 || v == 16 || v == 32 || v == 64 || v == 128
  }

  /** The boot-sector checks. An accepted geometry puts both the tables and every cluster inside
      the device, tables first. */
  function Mount(b: seq<Byte>, deviceSectors: nat): (r: Result<Geometry, FatError>)
    requires |b| == SECTOR_SIZE
    ensures r.Ok? ==> r.value.Valid() && r.value.Sectors() <= deviceSectors
  {
    if b[510] != 0x55 || b[511] != 0xAA then Err(InvalidBootSector) else
    var bytesPerSector := U16(b, 11);
    var spc: nat := b[13];
    var reserved := U16(b, 14);
    var fatCount: nat := b[16];
    var rootEntries := U16(b, 17);
    var total := if U16(b, 19) != 0 then U16(b, 19) else U32(b, 32);
    var fat16Size := U16(b, 22);
    var spf := U32(b, 36);
    var root := U32(b, 44) % 0x1000_0000;
    var fsinfo := U16(b, 48);
    if bytesPerSector != SECTOR_SIZE || spc == 0 || !PowerOfTwoByte(spc) || reserved == 0 || fatCount == 0
       || spf == 0 || rootEntries != 0 || fat16Size != 0 || total > deviceSectors
    then Err(Unsupported) else
    var dataStart := reserved + Row(fatCount, spf);
    if dataStart >= total then Err(InvalidBootSector) else
    var count := (total - dataStart) / spc;
    if count < 1 || count > 0x0fff_fff5 || spf * SECTOR_SIZE / 4 < count + 2 || root < 2 || root >= count + 2
    then Err(InvalidBootSector) else
    Locate(total - dataStart, spc);
    Ok(Geometry(spc, reserved, fatCount, spf, root, count,
                if fsinfo != 0 && fsinfo < reserved then Some(fsinfo) else None))
  }

  // ------------------------------------------------------------- addresses

  lemma FatLbaBound(g: Geometry, k: nat, s: nat)
    requires k < g.fatCount && s < g.sectorsPerFat
    ensures g.reserved <= g.FatLba(k, s) < g.DataStart()
  {
    RowMonotone(k, g.fatCount, g.sectorsPerFat);
  }

  lemma FatLbaUnique(g: Geometry, k: nat, s: nat, k': nat, s': nat)
    requires s < g.sectorsPerFat && s' < g.sectorsPerFat
    ensures g.FatLba(k, s) == g.FatLba(k', s') ==> k == k' && s == s'
  {
    RowsDistinct(k, s, k', s', g.sectorsPerFat);
  }

  lemma ClusterLbaBound(g: Geometry, c: nat, s: nat)
    requires 2 <= c < g.count + 2 && s < g.sectorsPerCluster
    ensures g.DataStart() <= g.ClusterLba(c) + s < g.Sectors()
  {
    RowMonotone(c - 2, g.count, g.sectorsPerCluster);
  }

  // ------------------------------------------------------------ disk views

  /** The 28-bit entry of cluster `c` in the table sector that holds it. */
  function EntryIn(sector: seq<Byte>, c: nat): (r: nat)
    requires |sector| == SECTOR_SIZE
    ensures r < 0x1000_0000
  {
    U32(sector, c % ENTRIES_PER_SECTOR * 4) % 0x1000_0000
  }

  /** The 28-bit entry of cluster `c` in table copy `k`. */
  ghost function Entry(g: Geometry, disk: Disk, k: nat, c: nat): (r: nat)
    requires g.Valid() && Fits(g, disk) && k < g.fatCount && c < g.count + 2
    ensures r < 0x1000_0000
  {
    FatLbaBound(g, k, c / ENTRIES_PER_SECTOR);
    EntryIn(disk[g.FatLba(k, c / ENTRIES_PER_SECTOR)], c)
  }

  /** The reserved top four bits beside the entry of cluster `c` in table copy `k`. */
  ghost function ReservedBits(g: Geometry, disk: Disk, k: nat, c: nat): (r: nat)
    requires g.Valid() && Fits(g, disk) && k < g.fatCount && c < g.count + 2
  {
    FatLbaBound(g, k, c / ENTRIES_PER_SECTOR);
    ReservedIn(disk[g.FatLba(k, c / ENTRIES_PER_SECTOR)], c)
  }

  function ReservedIn(sector: seq<Byte>, c: nat): nat
    requires |sector| == SECTOR_SIZE
  {
    U32(sector, c % ENTRIES_PER_SECTOR * 4) / 0x1000_0000
  }

  /** Nothing touched the reserved bits of any entry in any copy. */
  ghost predicate ReservedKept(g: Geometry, disk: Disk, disk': Disk)
    requires g.Valid() && Fits(g, disk) && Fits(g, disk')
  {
    forall k, c | 0 <= k < g.fatCount && 0 <= c < g.count + 2 ::
      ReservedBits(g, disk', k, c) == ReservedBits(g, disk, k, c)
  }

  ghost function FatOf(g: Geometry, disk: Disk): (r: seq<nat>)
    requires g.Valid() && Fits(g, disk)
    ensures |r| == g.count + 2
    ensures forall c | 0 <= c < |r| :: r[c] == Entry(g, disk, 0, c)
  {
    seq(g.count + 2, c requires 0 <= c < g.count + 2 => Entry(g, disk, 0, c))
  }

  ghost predicate CopiesAgree(g: Geometry, disk: Disk)
    requires g.Valid() && Fits(g, disk)
  {
    forall k, c | 0 <= k < g.fatCount && 0 <= c < g.count + 2 :: Entry(g, disk, k, c) == Entry(g, disk, 0, c)
  }

  /** The bytes of `n` sectors from `first` on. */
  function Join(disk: Disk, first: nat, n: nat): (r: seq<Byte>)
    requires first + n <= |disk|
    requires forall i | 0 <= i < |disk| :: |disk[i]| == SECTOR_SIZE
    ensures |r| == n * SECTOR_SIZE
  {
    if n == 0 then [] else Join(disk, first, n - 1) + disk[first + n - 1]
  }

  lemma {:induction false} JoinAt(disk: Disk, first: nat, n: nat, j: nat, o: nat)
    requires first + n <= |disk|
    requires forall i | 0 <= i < |disk| :: |disk[i]| == SECTOR_SIZE
    requires j < n && o < SECTOR_SIZE
    ensures Join(disk, first, n)[j * SECTOR_SIZE + o] == disk[first + j][o]
  {
    if j < n - 1 {
      JoinAt(disk, first, n - 1, j, o);
    }
  }

  lemma {:induction false} JoinFrame(disk: Disk, disk': Disk, first: nat, n: nat)
    requires first + n <= |disk| == |disk'|
    requires forall i | 0 <= i < |disk| :: |disk[i]| == SECTOR_SIZE
    requires forall i | 0 <= i < |disk'| :: |disk'[i]| == SECTOR_SIZE
    requires forall i | first <= i < first + n :: disk[i] == disk'[i]
    ensures Join(disk, first, n) == Join(disk', first, n)
  {
    if n > 0 {
      JoinFrame(disk, disk', first, n - 1);
    }
  }

  ghost function ClusterOf(g: Geometry, disk: Disk, c: nat): (r: seq<Byte>)
    requires g.Valid() && Fits(g, disk) && 2 <= c < g.count + 2
    ensures |r| == g.ClusterBytes()
  {
    ClusterLbaBound(g, c, g.sectorsPerCluster - 1);
    Join(disk, g.ClusterLba(c), g.sectorsPerCluster)
  }

  /** Contents of all clusters, indexed by cluster number; 0 and 1 name no cluster. */
  ghost function DataOf(g: Geometry, disk: Disk): (r: seq<seq<Byte>>)
    requires g.Valid() && Fits(g, disk)
    ensures |r| == g.count + 2
    ensures forall c | 2 <= c < |r| :: r[c] == ClusterOf(g, disk, c)
    ensures forall c | 0 <= c < 2 :: r[c] == []
  {
    seq(g.count + 2, c requires 0 <= c < g.count + 2 => if c < 2 then [] else ClusterOf(g, disk, c))
  }

  // ---------------------------------------------------------- sector writes

  /** The new 32-bit word for an entry: the top four bits stay. */
  function MergeEntry(word: nat, value: nat): (r: nat)
    requires word < 0x1_0000_0000 && value < 0x1000_0000
    ensures r < 0x1_0000_0000 && r % 0x1000_0000 == value && r / 0x1000_0000 == word / 0x1000_0000
  {
    word - word % 0x1000_0000 + value
  }

  function PatchedFatSector(sector: seq<Byte>, c: nat, value: nat): (r: seq<Byte>)
    requires |sector| == SECTOR_SIZE && value < 0x1000_0000
    ensures |r| == SECTOR_SIZE
  {
    var at := c % ENTRIES_PER_SECTOR * 4;
    Splice(sector, at, Le32(MergeEntry(U32(sector, at), value)))
  }

  lemma PatchedEntry(sector: seq<Byte>, c: nat, c': nat, value: nat)
    requires |sector| == SECTOR_SIZE && value < 0x1000_0000
    ensures EntryIn(PatchedFatSector(sector, c, value), c')
            == if c % ENTRIES_PER_SECTOR == c' % ENTRIES_PER_SECTOR then value else EntryIn(sector, c')
    ensures ReservedIn(PatchedFatSector(sector, c, value), c') == ReservedIn(sector, c')
  {
    var at, at' := c % ENTRIES_PER_SECTOR * 4, c' % ENTRIES_PER_SECTOR * 4;
    var word := MergeEntry(U32(sector, at), value);
    if at == at' {
      U32Spliced(sector, at, word);
    } else {
      U32Local(sector, PatchedFatSector(sector, c, value), at');
    }
  }

  /** Patching one table sector changes exactly one entry of one copy, no reserved bits, and no
      cluster. */
  lemma FatSectorWrite(g: Geometry, disk: Disk, disk': Disk, k: nat, c: nat, value: nat)
    requires g.Valid() && Fits(g, disk) && k < g.fatCount && c < g.count + 2 && value < 0x1000_0000
    requires g.FatLba(k, c / ENTRIES_PER_SECTOR) < |disk|
    requires disk' == disk[g.FatLba(k, c / ENTRIES_PER_SECTOR) :=
                             PatchedFatSector(disk[g.FatLba(k, c / ENTRIES_PER_SECTOR)], c, value)]
    ensures Fits(g, disk')
    ensures forall k', c' | 0 <= k' < g.fatCount && 0 <= c' < g.count + 2 ::
              Entry(g, disk', k', c') == if k' == k && c' == c then value else Entry(g, disk, k', c')
    ensures ReservedKept(g, disk, disk') && DataOf(g, disk') == DataOf(g, disk)
  {
    FatLbaBound(g, k, c / ENTRIES_PER_SECTOR);
    assert Fits(g, disk');
    forall k', c' | 0 <= k' < g.fatCount && 0 <= c' < g.count + 2
      ensures Entry(g, disk', k', c') == if k' == k && c' == c then value else Entry(g, disk, k', c')
      ensures ReservedBits(g, disk', k', c') == ReservedBits(g, disk, k', c')
    {
      FatLbaBound(g, k', c' / ENTRIES_PER_SECTOR);
      FatLbaUnique(g, k, c / ENTRIES_PER_SECTOR, k', c' / ENTRIES_PER_SECTOR);
      PatchedEntry(disk[g.FatLba(k, c / ENTRIES_PER_SECTOR)], c, c', value);
    }
    DataUntouched(g, disk, disk', g.FatLba(k, c / ENTRIES_PER_SECTOR));
  }

  /** `s'` is the sector `s` with its two free-space hints forgotten. */
  ghost predicate Forgotten(s: seq<Byte>, s': seq<Byte>)
  {
    |s'| == |s| && forall i | 0 <= i < |s| :: s'[i] == if 488 <= i < 496 then 0xff else s[i]
  }

  /** Between two disks nothing differs but the tables, the clusters and the hints in the FSInfo sector. */
  ghost predicate OnlyVolume(g: Geometry, before: Disk, after: Disk)
  {
    && |after| == |before|
    && forall lba | 0 <= lba < |after| && (lba < g.reserved || g.Sectors() <= lba) ::
         after[lba] == before[lba] || (g.fsinfo == Some(lba) && Forgotten(before[lba], after[lba]))
  }

  lemma VolumeWrite(g: Geometry, before: Disk, disk: Disk, lba: nat, sector: seq<Byte>)
    requires OnlyVolume(g, before, disk) && g.reserved <= lba < g.Sectors() <= |disk|
    ensures OnlyVolume(g, before, disk[lba := sector])
  {
    hide Forgotten;
  }

  lemma ForgottenBytes(s: seq<Byte>, s': seq<Byte>)
    requires |s| == SECTOR_SIZE && s' == Splice(Splice(s, 488, Le32(0xffff_ffff)), 492, Le32(0xffff_ffff))
    ensures Forgotten(s, s')
  {
    assert Le32(0xffff_ffff) == [0xff, 0xff, 0xff, 0xff];
  }

  lemma HintWrite(g: Geometry, before: Disk, disk: Disk, lba: nat, sector: seq<Byte>)
    requires OnlyVolume(g, before, disk) && lba < |disk| && g.fsinfo == Some(lba) && Forgotten(disk[lba], sector)
    ensures OnlyVolume(g, before, disk[lba := sector])
  {
  }

  /** A write below the data area leaves every cluster alone. */
  lemma DataUntouched(g: Geometry, disk: Disk, disk': Disk, lba: nat)
    requires g.Valid() && Fits(g, disk) && Fits(g, disk') && |disk| == |disk'|
    requires lba < g.DataStart()
    requires forall i | 0 <= i < |disk| && i != lba :: disk'[i] == disk[i]
    ensures DataOf(g, disk') == DataOf(g, disk)
  {
    forall c | 2 <= c < g.count + 2 ensures ClusterOf(g, disk', c) == ClusterOf(g, disk, c) {
      ClusterLbaBound(g, c, 0);
      ClusterLbaBound(g, c, g.sectorsPerCluster - 1);
      JoinFrame(disk, disk', g.ClusterLba(c), g.sectorsPerCluster);
    }
  }

  /** A write outside the tables leaves every table entry alone. */
  lemma TablesUntouched(g: Geometry, disk: Disk, disk': Disk, lba: nat)
    requires g.Valid() && Fits(g, disk) && Fits(g, disk') && |disk| == |disk'|
    requires lba < g.reserved || g.DataStart() <= lba
    requires forall i | 0 <= i < |disk| && i != lba :: disk'[i] == disk[i]
    ensures forall k, c | 0 <= k < g.fatCount && 0 <= c < g.count + 2 :: Entry(g, disk', k, c) == Entry(g, disk, k, c)
    ensures ReservedKept(g, disk, disk')
  {
    forall k, c | 0 <= k < g.fatCount && 0 <= c < g.count + 2
      ensures Entry(g, disk', k, c) == Entry(g, disk, k, c)
      ensures ReservedBits(g, disk', k, c) == ReservedBits(g, disk, k, c)
    {
      FatLbaBound(g, k, c / ENTRIES_PER_SECTOR);
    }
  }

  /** Replacing sector `j` of cluster `c` changes that stretch of that cluster and nothing else. */
  lemma DataSectorWrite(g: Geometry, disk: Disk, disk': Disk, c: nat, j: nat, sector: seq<Byte>)
    requires g.Valid() && Fits(g, disk) && 2 <= c < g.count + 2 && j < g.sectorsPerCluster
    requires |sector| == SECTOR_SIZE && g.ClusterLba(c) + j < |disk|
    requires disk' == disk[g.ClusterLba(c) + j := sector]
    ensures Fits(g, disk')
    ensures forall k, c' | 0 <= k < g.fatCount && 0 <= c' < g.count + 2 ::
              Entry(g, disk', k, c') == Entry(g, disk, k, c')
    ensures j * SECTOR_SIZE + SECTOR_SIZE <= g.ClusterBytes()
    ensures DataOf(g, disk') == DataOf(g, disk)[c := Splice(DataOf(g, disk)[c], j * SECTOR_SIZE, sector)]
  {
    var lba := g.ClusterLba(c) + j;
    ClusterLbaBound(g, c, j);
    assert Fits(g, disk');
    TablesUntouched(g, disk, disk', lba);
    forall c' | 2 <= c' < g.count + 2 && c' != c ensures ClusterOf(g, disk', c') == ClusterOf(g, disk, c') {
      ClusterLbaBound(g, c', g.sectorsPerCluster - 1);
      forall i | g.ClusterLba(c') <= i < g.ClusterLba(c') + g.sectorsPerCluster ensures disk'[i] == disk[i] {
        if i == lba {
          RowsDistinct(c - 2, j, c' - 2, i - g.ClusterLba(c'), g.sectorsPerCluster);
        }
      }
      JoinFrame(disk, disk', g.ClusterLba(c'), g.sectorsPerCluster);
    }
    ClusterLbaBound(g, c, g.sectorsPerCluster - 1);
    JoinSplice(disk, disk', g.ClusterLba(c), g.sectorsPerCluster, j, sector);
  }

  lemma JoinSplice(disk: Disk, disk': Disk, first: nat, n: nat, j: nat, sector: seq<Byte>)
    requires first + n <= |disk| && j < n && |sector| == SECTOR_SIZE
    requires forall i | 0 <= i < |disk| :: |disk[i]| == SECTOR_SIZE
    requires disk' == disk[first + j := sector]
    ensures Join(disk', first, n) == Splice(Join(disk, first, n), j * SECTOR_SIZE, sector)
  {
    var a, b := Join(disk', first, n), Splice(Join(disk, first, n), j * SECTOR_SIZE, sector);
    forall p | 0 <= p < |a| ensures a[p] == b[p] {
      var q, o := p / SECTOR_SIZE, p % SECTOR_SIZE;
      JoinAt(disk, first, n, q, o);
      JoinAt(disk', first, n, q, o);
    }
  }

  /** A sector of a cluster holds the matching stretch of its contents. */
  lemma SectorOfCluster(g: Geometry, disk: Disk, c: nat, j: nat)
    requires g.Valid() && Fits(g, disk) && 2 <= c < g.count + 2 && j < g.sectorsPerCluster
    ensures g.ClusterLba(c) + j < |disk| && j * SECTOR_SIZE + SECTOR_SIZE <= g.ClusterBytes()
    ensures disk[g.ClusterLba(c) + j] == DataOf(g, disk)[c][j * SECTOR_SIZE..j * SECTOR_SIZE + SECTOR_SIZE]
  {
    ClusterLbaBound(g, c, j);
    ClusterLbaBound(g, c, g.sectorsPerCluster - 1);
    var a, b := disk[g.ClusterLba(c) + j], DataOf(g, disk)[c][j * SECTOR_SIZE..j * SECTOR_SIZE + SECTOR_SIZE];
    forall o | 0 <= o < SECTOR_SIZE ensures a[o] == b[o] {
      JoinAt(disk, g.ClusterLba(c), g.sectorsPerCluster, j, o);
    }
  }

  /** Reading a sector, changing part of it and writing it back changes that part of the cluster. */
  lemma ReadModifyWrite(b: seq<Byte>, at: nat, o: nat, piece: seq<Byte>)
    requires at + SECTOR_SIZE <= |b| && o + |piece| <= SECTOR_SIZE
    ensures Splice(b, at, Splice(b[at..at + SECTOR_SIZE], o, piece)) == Splice(b, at + o, piece)
  {
  }
}
