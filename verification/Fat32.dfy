/** The FAT32 driver over a 512-byte block device that does not fail.

    `disk` is the device. `trace` records the volume after every single sector write, so that what a
    power cut would leave behind can be stated. */
module Fat32Driver {
  import opened Bytes
  import opened Wrappers
  import opened Rows
  import opened FatChains
  import opened FatLayout
  import opened FatContent
  import opened FatDirectory
  import opened FatNames
  import opened FatTree
  import opened FatVolume
  import opened FatFsck
  import opened FatSteps
  import opened FatWrite
  import opened FatRemove
  import opened FatCreate
  import opened FatOrphans

  /** A change to the file system, addressed by directory path and name. */
  datatype Op =
    | CreateFileOp(dir: seq<seq<nat>>, name: seq<nat>, short: seq<Byte>)
    | CreateDirOp(dir: seq<seq<nat>>, name: seq<nat>, short: seq<Byte>)
    | WriteOp(dir: seq<seq<nat>>, name: seq<nat>, offset: nat, data: seq<Byte>)
    | TruncateOp(dir: seq<seq<nat>>, name: seq<nat>)
    | RemoveOp(dir: seq<seq<nat>>, name: seq<nat>)

  ghost predicate OpOk(op: Op)
  {
    && (op.CreateFileOp? || op.CreateDirOp? ==> Utf16(op.name) && ShortOk(op.short))
    && (op.CreateDirOp? ==> !IsDot(ListedName(op.name, op.short)))
  }

  /** What operation `op` on directory `d` does to a checked volume, by its result. */
  ghost predicate Done(g: Geometry, op: Op, d: nat, v: Vol, t: Tree, v': Vol, t': Tree, err: Option<FatError>)
  {
    && g.Valid() && d in t.chains && d in t'.chains
    && var items := Shown(g, v, t.chains[d]);
    match op
    case CreateFileOp(_, name, short) =>
      && |short| == 11 && err == CreateFileError(g, v, items, name)
      && (err.None? && NoMatch(items, name) ==>
            AddedEntry(g, v, t, v', t', d, NewFileItem(g, t.chains[d], name, short)))
      && (err.None? && !NoMatch(items, name) ==> v' == v && t' == t)
      && (err.Some? ==> t' == t && Unharmed(g, v, t, v'))
    case CreateDirOp(_, name, short) =>
      && |short| == 11 && err == CreateDirError(g, v, items, name)
      && (err.None? ==> exists c :: CreatedDir(g, v, t, v', t', d, name, short, c))
      && (err.Some? ==> t' == t && Unharmed(g, v, t, v'))
    case WriteOp(_, name, offset, data) =>
      && err == WriteError(g, v, t, items, name, offset, |data|)
      && (err.None? ==> WroteFile(g, v, t, v', t', d, name, offset, data))
      && (err.Some? ==> t' == t && Unharmed(g, v, t, v'))
    case TruncateOp(_, name) =>
      && err == TruncateError(items, name)
      && (err.None? ==> TruncatedFile(g, v, t, v', t', d, name)) && (err.Some? ==> v' == v && t' == t)
    case RemoveOp(_, name) =>
      && err == RemoveError(g, v, t, items, name)
      && (err.None? ==> RemovedEntry(g, v, t, v', t', d, name)) && (err.Some? ==> v' == v && t' == t)
  }

  /** The same for an operation addressed by path. */
  ghost predicate Performed(g: Geometry, op: Op, v: Vol, t: Tree, v': Vol, t': Tree, err: Option<FatError>)
  {
    var d := Resolved(AllListings(g, v, t), LongDirs(g, v, t), Some(g.root), op.dir);
    if op.WriteOp? && op.data == [] then err == None && v' == v && t' == t
    else if op.WriteOp? && op.offset + |op.data| > 0xffff_ffff then err == Some(TooLarge) && v' == v && t' == t
    else if op.name in {[], [0x2e], [0x2e, 0x2e]} then err == Some(InvalidName) && v' == v && t' == t
    else if d.Err? then err == Some(d.error) && v' == v && t' == t
    else Done(g, op, d.value, v, t, v', t', err)
  }

  class Fat32 {
    const g: Geometry
    var disk: Disk
    var hint: nat
    var fsinfoInvalidated: bool
    ghost var trace: seq<Vol>
    ghost var tree: Tree
    /** The disk as it was mounted. */
    ghost const mounted: Disk

    /** The volume passes the file-system check, with `tree` as its bookkeeping. */
    ghost predicate Valid()
      reads this
    {
      Ok() && Linkable(g) && Fsck(g, V(), tree)
    }

    ghost predicate Ok()
      reads this
    {
      g.Valid() && Fits(g, disk) && CopiesAgree(g, disk) && OnlyVolume(g, mounted, disk)
    }

    ghost function V(): (v: Vol)
      reads this
      requires Ok()
      ensures VolOk(g, v)
    {
      View(g, disk)
    }

    /** Mount a volume that passes the check. */
    constructor (geometry: Geometry, sectors: Disk, ghost t: Tree)
      requires geometry.Valid() && Fits(geometry, sectors) && CopiesAgree(geometry, sectors)
      requires Linkable(geometry) && Fsck(geometry, View(geometry, sectors), t)
      ensures Valid() && g == geometry && disk == sectors == mounted && hint == 2 && tree == t
    {
      hide Fsck, Fits, CopiesAgree, View;
      mounted := sectors;
      g, disk, hint, fsinfoInvalidated, trace, tree := geometry, sectors, 2, false, [], t;
    }

    // ------------------------------------------------------------- sectors

    method WriteSector(lba: nat, sector: seq<Byte>)
      requires g.Valid() && Fits(g, disk) && lba < |disk| && |sector| == SECTOR_SIZE
      modifies this`disk, this`trace
      ensures disk == old(disk)[lba := sector] && Fits(g, disk)
      ensures trace == old(trace) + [View(g, disk)]
    {
      disk := disk[lba := sector];
      trace := trace + [View(g, disk)];
    }

    /** Forget the cached free-space hints on disk; the volume itself stays as it is. */
    method InvalidateFsinfoHint()
      requires Ok()
      modifies this`disk, this`trace, this`fsinfoInvalidated
      ensures Ok() && V() == old(V()) && fsinfoInvalidated
      ensures StepsAmong(old(trace), trace, old(V()), V())
      ensures forall k, c | 0 <= k < g.fatCount && 0 <= c < g.count + 2 ::
              Entry(g, disk, k, c) == Entry(g, old(disk), k, c)
      ensures old(fsinfoInvalidated) || g.fsinfo.None? ==> disk == old(disk)
      ensures !old(fsinfoInvalidated) && g.fsinfo.Some? ==>
                var s := old(disk)[g.fsinfo.value];
                if U32(s, 0) == 0x4161_5252 && U32(s, 484) == 0x6141_7272 && U32(s, 508) == 0xaa55_0000
                then Forgotten(s, disk[g.fsinfo.value]) && disk == old(disk)[g.fsinfo.value := disk[g.fsinfo.value]]
                else disk == old(disk)
      ensures ReservedKept(g, old(disk), disk)
    {
      hide OnlyVolume;
      if !fsinfoInvalidated && g.fsinfo.Some? {
        var lba := g.fsinfo.value;
        assert lba < g.DataStart();
        var sector := disk[lba];
        if U32(sector, 0) == 0x4161_5252 && U32(sector, 484) == 0x6141_7272 && U32(sector, 508) == 0xaa55_0000 {
          sector := Splice(sector, 488, Le32(0xffff_ffff));
          sector := Splice(sector, 492, Le32(0xffff_ffff));
          ForgottenBytes(disk[lba], sector);
          HintWrite(g, mounted, disk, lba, sector);
          WriteSector(lba, sector);
          TablesUntouched(g, old(disk), disk, lba);
          DataUntouched(g, old(disk), disk, lba);
        }
      }
      fsinfoInvalidated := true;
    }

    // ----------------------------------------------------------- the table

    method FatEntry(c: nat) returns (r: Result<nat, FatError>)
      requires Ok()
      ensures c >= g.count + 2 ==> r == Err(Corrupt)
      ensures c < g.count + 2 ==> r == Result.Ok(V().fat[c])
    {
      if c >= g.count + 2 {
        return Err(Corrupt);
      }
      FatLbaBound(g, 0, c / ENTRIES_PER_SECTOR);
      return Result.Ok(EntryIn(disk[g.reserved + c * 4 / SECTOR_SIZE], c));
    }

    /** Patch the entry in one copy of the table. */
    method WriteFatCopy(k: nat, c: nat, value: nat)
      requires g.Valid() && Fits(g, disk) && k < g.fatCount && c < g.count + 2 && value < 0x1000_0000
      requires OnlyVolume(g, mounted, disk)
      modifies this`disk, this`trace
      ensures OnlyVolume(g, mounted, disk) && Fits(g, disk) && DataOf(g, disk) == DataOf(g, old(disk))
              && ReservedKept(g, old(disk), disk)
      ensures forall k', c' | 0 <= k' < g.fatCount && 0 <= c' < g.count + 2 ::
                Entry(g, disk, k', c') == if k' == k && c' == c then value else Entry(g, old(disk), k', c')
      ensures trace == old(trace) + [View(g, disk)]
    {
      hide OnlyVolume;
      FatLbaBound(g, k, c / ENTRIES_PER_SECTOR);
      var lba := g.FatLba(k, c / ENTRIES_PER_SECTOR);
      VolumeWrite(g, mounted, disk, lba, PatchedFatSector(disk[lba], c, value));
      WriteSector(lba, PatchedFatSector(disk[lba], c, value));
      FatSectorWrite(g, old(disk), disk, k, c, value);
    }

    /** Set an entry in every copy of the table, keeping its top four bits. */
    method SetFatEntry(c: nat, value: nat) returns (err: Option<FatError>)
      requires Ok()
      modifies this`disk, this`trace, this`fsinfoInvalidated
      ensures Ok()
      ensures c >= g.count + 2 ==> err == Some(Corrupt) && disk == old(disk) && trace == old(trace)
      ensures c < g.count + 2 ==> err == None && V() == old(V()).(fat := old(V()).fat[c := value % 0x1000_0000])
      ensures StepsAmong(old(trace), trace, old(V()), V()) && ReservedKept(g, old(disk), disk)
    {
      hide OnlyVolume;
      if c >= g.count + 2 {
        return Some(Corrupt);
      }
      InvalidateFsinfoHint();
      ghost var d0 := disk;
      ghost var goal := old(V()).(fat := old(V()).fat[c := value % 0x1000_0000]);
      for k := 0 to g.fatCount
        invariant Fits(g, disk) && OnlyVolume(g, mounted, disk)
        invariant DataOf(g, disk) == DataOf(g, d0) && ReservedKept(g, old(disk), disk)
        invariant forall k', c' | 0 <= k' < g.fatCount && 0 <= c' < g.count + 2 ::
                    Entry(g, disk, k', c') == if k' < k && c' == c then value % 0x1000_0000 else Entry(g, d0, k', c')
        invariant k > 0 ==> View(g, disk) == goal
        invariant old(trace) <= trace && forall i | |old(trace)| <= i < |trace| ::
                  trace[i] == old(V()) || trace[i] == goal
      {
        WriteFatCopy(k, c, value % 0x1000_0000);
        assert FatOf(g, disk) == goal.fat;
      }
      err := None;
    }

    // ------------------------------------------------------------ clusters

    /** Overwrite part of one cluster; the part must lie in one sector. */
    method WriteDirectoryBytes(c: nat, offset: nat, piece: seq<Byte>) returns (err: Option<FatError>)
      requires Ok() && offset < g.ClusterBytes()
      modifies this`disk, this`trace
      ensures Ok()
      ensures err == if !(2 <= c < g.count + 2) || offset % SECTOR_SIZE + |piece| > SECTOR_SIZE then Some(Corrupt)
              else None
      ensures err.Some? ==> disk == old(disk) && trace == old(trace)
      ensures err.None? ==> offset + |piece| <= g.ClusterBytes()
      ensures err.None? ==> V() == old(V()).(data := old(V()).data[c := Splice(old(V()).data[c], offset, piece)])
      ensures err.None? ==> trace == old(trace) + [V()]
    {
      hide OnlyVolume;
      if !(2 <= c < g.count + 2) || offset % SECTOR_SIZE + |piece| > SECTOR_SIZE {
        return Some(Corrupt);
      }
      var j, o := offset / SECTOR_SIZE, offset % SECTOR_SIZE;
      SectorOfCluster(g, disk, c, j);
      var sector := Splice(disk[g.ClusterLba(c) + j], o, piece);
      ClusterLbaBound(g, c, j);
      VolumeWrite(g, mounted, disk, g.ClusterLba(c) + j, sector);
      WriteSector(g.ClusterLba(c) + j, sector);
      DataSectorWrite(g, old(disk), disk, c, j, sector);
      ReadModifyWrite(DataOf(g, old(disk))[c], j * SECTOR_SIZE, o, piece);
      assert FatOf(g, disk) == FatOf(g, old(disk));
      err := None;
    }

    /** Fill a cluster with zeros, one sector at a time. */
    method ZeroCluster(c: nat)
      requires Ok() && 2 <= c < g.count + 2
      modifies this`disk, this`trace
      ensures Ok() && V() == old(V()).(data := old(V()).data[c := Zeros(g.ClusterBytes())])
      ensures StepsOff(g, old(trace), trace, old(V()), c)
    {
      hide OnlyVolume;
      for j := 0 to g.sectorsPerCluster
        invariant Ok() && V().fat == old(V()).fat && AgreeOff(g, old(V()), V(), c)
        invariant forall o | 0 <= o < j * SECTOR_SIZE :: V().data[c][o] == 0
        invariant StepsOff(g, old(trace), trace, old(V()), c)
      {
        ghost var d1 := disk;
        SectorOfCluster(g, disk, c, j);
        ClusterLbaBound(g, c, j);
        VolumeWrite(g, mounted, disk, g.ClusterLba(c) + j, Zeros(SECTOR_SIZE));
        WriteSector(g.ClusterLba(c) + j, Zeros(SECTOR_SIZE));
        DataSectorWrite(g, d1, disk, c, j, Zeros(SECTOR_SIZE));
        assert FatOf(g, disk) == FatOf(g, d1);
      }
      assert V().data[c] == Zeros(g.ClusterBytes());
    }

    /** Take a free cluster out of the free set and zero it. */
    method ClaimCluster(c: nat)
      requires Ok() && 2 <= c < g.count + 2
      modifies this`disk, this`trace, this`fsinfoInvalidated, this`hint
      ensures Ok()
      ensures V() == Vol(old(V()).fat[c := EOC], old(V()).data[c := Zeros(g.ClusterBytes())])
      ensures StepsOff(g, old(trace), trace, old(V()), c) && hint == if c == g.count + 1 then 2 else c + 1
    {
      hide Fits, CopiesAgree, OnlyVolume, FatOf, DataOf;
      var _ := SetFatEntry(c, EOC);
      ghost var t1, v1 := trace, V();
      ZeroCluster(c);
      hint := if c == g.count + 1 then 2 else c + 1;
      AllocationSteps(g, old(trace), t1, trace, old(V()), v1, c);
    }

    /** Claim the first free cluster at or after the hint, wrapping around, and zero it. */
    method AllocateCluster() returns (r: Result<nat, FatError>)
      requires Ok()
      modifies this`disk, this`trace, this`fsinfoInvalidated, this`hint
      ensures Ok()
      ensures r.Ok? ==> 2 <= r.value < g.count + 2 && old(V()).fat[r.value] == 0
      ensures r.Ok? ==> V() == Vol(old(V()).fat[r.value := EOC], old(V()).data[r.value := Zeros(g.ClusterBytes())])
      ensures r.Ok? ==>
                StepsOff(g, old(trace), trace, old(V()), r.value)
                && hint == if r.value == g.count + 1 then 2 else r.value + 1
      ensures r.Ok? ==>
                var start := if old(hint) < 2 then 2 else if old(hint) > g.count + 1 then g.count + 1 else old(hint);
                forall c | 2 <= c < g.count + 2
                           && (if start <= r.value then start <= c < r.value else c >= start || c < r.value) ::
                  old(V()).fat[c] != 0
      ensures r.Err? ==> r.error == NoSpace && disk == old(disk) && trace == old(trace)
      ensures r.Err? <==> forall c | 2 <= c < g.count + 2 :: old(V()).fat[c] != 0
    {
      hide Fits, CopiesAgree, OnlyVolume, FatOf, DataOf, StepsOff, View, Wrap;
      var start := Clamp(hint, g.count);
      ghost var fat := V().fat;
      for step := 0 to g.count
        invariant disk == old(disk) && trace == old(trace)
        invariant forall c | start <= c < start + step && c < g.count + 2 :: fat[c] != 0
        invariant forall c | 2 <= c < start + step - g.count :: fat[c] != 0
      {
        var cluster := 2 + Wrap(start - 2 + step, g.count);
        var entry := FatEntry(cluster);
        if entry.value == 0 {
          ClaimCluster(cluster);
          return Result.Ok(cluster);
        }
      }
      assert forall c | 2 <= c < g.count + 2 :: fat[c] != 0;
      r := Err(NoSpace);
    }

    method NextCluster(c: nat) returns (r: Next)
      requires Ok()
      ensures r == NextOf(V().fat, c)
    {
      if c < 2 || c >= g.count + 2 {
        return Broken;
      }
      var entry := FatEntry(c);
      var next := entry.value;
      if next >= EOC_MIN {
        return End;
      } else if next == 0 || next == 1 || LINK_LIMIT <= next <= BAD {
        return Broken;
      } else if next < 2 || next >= g.count + 2 {
        return Broken;
      }
      return Link(next);
    }

    /** The chain from `first`; an error exactly when there is none. */
    method CollectChain(first: nat) returns (r: Result<seq<nat>, FatError>)
      requires Ok()
      ensures first == 0 ==> r == Result.Ok([])
      ensures first != 0 && r.Ok? ==> IsChain(V().fat, r.value) && r.value[0] == first
      ensures r.Err? ==> r.error == Corrupt && first != 0 && forall s | IsChain(V().fat, s) :: s[0] != first
    {
      if first == 0 {
        return Result.Ok([]);
      }
      ghost var fat := V().fat;
      var chain: seq<nat> := [];
      var current := Link(first);
      while current.Link?
        invariant |chain| <= g.count && current != Broken
        invariant chain == [] ==> current == Link(first)
        invariant chain != [] ==> IsPath(fat, chain) && chain[0] == first && NextOf(fat, chain[|chain| - 1]) == current
        decreases g.count - |chain|, current
      {
        var c := current.to;
        if |chain| >= g.count {
          NoLongChain(fat, chain, c);
          return Err(Corrupt);
        }
        current := NextCluster(c);
        if current == Broken {
          NoBrokenChain(fat, chain, c);
          return Err(Corrupt);
        }
        chain := chain + [c];
      }
      r := Result.Ok(chain);
    }

    /** Mark every cluster of `chain` free. */
    method ReleaseChain(chain: seq<nat>)
      requires Ok() && InRange(V().fat, chain)
      modifies this`disk, this`trace, this`fsinfoInvalidated, this`hint
      ensures Ok() && V().data == old(V()).data
      ensures forall c | 0 <= c < g.count + 2 :: V().fat[c] == if c in chain then 0 else old(V()).fat[c]
      ensures old(trace) <= trace
      ensures forall i | |old(trace)| <= i < |trace| :: FreedPart(g, old(V()), trace[i], chain)
    {
      for i := 0 to |chain|
        invariant Ok() && V().data == old(V()).data
        invariant forall c | 0 <= c < g.count + 2 :: V().fat[c] == if c in chain[..i] then 0 else old(V()).fat[c]
        invariant old(trace) <= trace && forall k | |old(trace)| <= k < |trace| ::
                  FreedPart(g, old(V()), trace[k], chain)
      {
        ghost var v1 := V();
        assert FreedPart(g, old(V()), v1, chain);
        var _ := SetFatEntry(chain[i], 0);
        assert FreedPart(g, old(V()), V(), chain);
        if chain[i] < hint { hint := chain[i]; }
        assert chain[..i + 1] == chain[..i] + [chain[i]];
      }
      assert chain[..|chain|] == chain;
    }

    // ------------------------------------------------------- growing chains

    /** Give back the clusters behind the first `originalLen` and end the chain there again. */
    method RollbackChainGrowth(chain: seq<nat>, originalLen: nat)
      requires Ok() && originalLen <= |chain| && InRange(V().fat, chain)
      modifies this`disk, this`trace, this`fsinfoInvalidated, this`hint
      ensures Ok() && V().data == old(V()).data
      ensures originalLen > 0 ==> chain[originalLen - 1] !in chain[originalLen..] ==>
                forall c | 0 <= c < g.count + 2 ::
                  V().fat[c] == if c in chain[originalLen..] then 0
                                else if c == chain[originalLen - 1] then EOC else old(V()).fat[c]
      ensures originalLen == 0 ==>
                forall c | 0 <= c < g.count + 2 :: V().fat[c] == if c in chain then 0 else old(V()).fat[c]
    {
      hide Fits, CopiesAgree, OnlyVolume, FatOf, DataOf, View;
      if originalLen > 0 {
        var _ := SetFatEntry(chain[originalLen - 1], EOC);
      }
      assert originalLen == 0 ==> chain[originalLen..] == chain;
      ReleaseChain(chain[originalLen..]);
    }

    /** Grow `chain` to `needed` clusters. Fails exactly when too few clusters are free, and then
        leaves every chain (up to its end mark), every used cluster and the free set as they were. */
    method EnsureChain(chain: seq<nat>, needed: nat) returns (r: Result<seq<nat>, FatError>, grown: seq<nat>)
      requires Ok() && Linkable(g) && (chain == [] || IsChain(V().fat, chain))
      modifies this`disk, this`trace, this`fsinfoInvalidated, this`hint
      ensures Ok()
      ensures r.Ok? ==> grown == chain + r.value && |grown| == if needed > |chain| then needed else |chain|
      ensures r.Ok? ==> Grown(g, old(V()), V(), chain, r.value)
      ensures r.Err? ==> r.error == NoSpace && grown == chain && SameChains(old(V()).fat, V().fat)
      ensures r.Err? ==> forall c | 0 <= c < g.count + 2 && old(V()).fat[c] != 0 :: V().data[c] == old(V()).data[c]
      ensures r.Err? <==> |FreeSet(old(V()).fat)| + |chain| < needed
    {
      hide Fits, CopiesAgree, OnlyVolume, FatOf, DataOf, View, IsChain, StepsOff, Grown, FreeSet;
      ghost var v0 := V();
      var added: seq<nat> := [];
      GrownNothing(g, v0, chain);
      while |chain| + |added| < needed
        invariant Ok() && Grown(g, v0, V(), chain, added)
        invariant |chain| + |added| <= if needed > |chain| then needed else |chain|
        decreases needed - |added|
      {
        ghost var v1 := V();
        GrownParts(g, v0, v1, chain, added);
        GrownFree(g, v0, v1, chain, added);
        var c := AllocateCluster();
        if c.Err? {
          NothingFree(v1.fat);
          RollbackChainGrowth(chain + added, |chain|);
          RolledBack(g, v0, v1, V(), chain, added);
          return Err(c.error), chain;
        }
        if |chain| + |added| > 0 {
          var _ := SetFatEntry((chain + added)[|chain + added| - 1], c.value);
        }
        GrownStep(g, v0, v1, V(), chain, added, c.value);
        added := added + [c.value];
      }
      GrownFree(g, v0, V(), chain, added);
      return Result.Ok(added), chain + added;
    }

    // ----------------------------------------------------------- file bytes

    /** Overwrite bytes inside one sector of the `i`-th cluster of a chain. */
    method WritePiece(chain: seq<nat>, i: nat, inCluster: nat, piece: seq<Byte>)
      requires Ok() && InRange(V().fat, chain) && NoDup(chain) && i < |chain| && inCluster < g.ClusterBytes()
      requires inCluster % SECTOR_SIZE + |piece| <= SECTOR_SIZE
      modifies this`disk, this`trace
      ensures Ok() && V().fat == old(V()).fat
      ensures forall c | 0 <= c < g.count + 2 && c !in chain :: V().data[c] == old(V()).data[c]
      ensures Row(i, g.ClusterBytes()) + inCluster + |piece| <= Row(|chain|, g.ClusterBytes())
      ensures Content(g, V(), chain) == Splice(Content(g, old(V()), chain), Row(i, g.ClusterBytes()) + inCluster, piece)
    {
      hide Fits, CopiesAgree, OnlyVolume, FatOf, DataOf, View, Flatten;
      var _ := WriteDirectoryBytes(chain[i], inCluster, piece);
      FlattenSplice(old(V()).data, chain, g.ClusterBytes(), i, inCluster, piece);
    }

    /** Overwrite bytes of a chain, sector by sector. Bytes behind the end of the chain are refused. */
    method WriteChainRange(chain: seq<nat>, offset: nat, data: seq<Byte>) returns (err: Option<FatError>)
      requires Ok() && InRange(V().fat, chain) && NoDup(chain)
      modifies this`disk, this`trace
      ensures Ok() && V().fat == old(V()).fat
      ensures forall c | 0 <= c < g.count + 2 && c !in chain :: V().data[c] == old(V()).data[c]
      ensures err == if data == [] || offset + |data| <= Row(|chain|, g.ClusterBytes()) then None else Some(Corrupt)
      ensures err.None? && data == [] ==> V() == old(V())
      ensures err.None? && data != [] ==>
                Content(g, V(), chain) == Splice(Content(g, old(V()), chain), offset, data)
    {
      hide Fits, CopiesAgree, OnlyVolume, FatOf, DataOf, View, Content, RowOf, ColumnOf, Row, Overlaid;
      var cb := g.ClusterBytes();
      ghost var v0 := V();
      ghost var room := Row(|chain|, cb);
      var k := 0;
      while k < |data|
        invariant Ok() && V().fat == v0.fat
        invariant forall c | 0 <= c < g.count + 2 && c !in chain :: V().data[c] == v0.data[c]
        invariant 0 <= k <= |data| && (k == 0 ==> V() == v0) && (k > 0 ==> offset + k <= room)
        invariant Content(g, V(), chain) == Overlaid(Content(g, v0, chain), offset, data, k)
      {
        var ci, inCluster := RowOf(offset + k, cb), ColumnOf(offset + k, cb);
        if ci >= |chain| {
          RowMonotoneEq(|chain|, ci, cb);
          return Some(Corrupt);
        }
        var inSector := inCluster % SECTOR_SIZE;
        var n := if |data| - k < SECTOR_SIZE - inSector then |data| - k else SECTOR_SIZE - inSector;
        WritePiece(chain, ci, inCluster, data[k..k + n]);
        PieceWritten(Content(g, v0, chain), offset, data, k, n);
        k := k + n;
      }
      WholeWritten(Content(g, v0, chain), offset, data);
      err := None;
    }

    /** Zero bytes of a chain. */
    method WriteZeroRange(chain: seq<nat>, offset: nat, len: nat) returns (err: Option<FatError>)
      requires Ok() && InRange(V().fat, chain) && NoDup(chain) && offset + len <= Row(|chain|, g.ClusterBytes())
      modifies this`disk, this`trace
      ensures Ok() && V().fat == old(V()).fat && err == None
      ensures forall c | 0 <= c < g.count + 2 && c !in chain :: V().data[c] == old(V()).data[c]
      ensures Content(g, V(), chain) == Splice(Content(g, old(V()), chain), offset, Zeros(len))
    {
      hide Fits, CopiesAgree, OnlyVolume, FatOf, DataOf, View, Flatten;
      ghost var v0 := V();
      var o, rest := offset, len;
      assert Splice(Content(g, v0, chain), offset, Zeros(0)) == Content(g, v0, chain);
      while rest != 0
        invariant Ok() && V().fat == v0.fat
        invariant forall c | 0 <= c < g.count + 2 && c !in chain :: V().data[c] == v0.data[c]
        invariant 0 <= rest <= len && o == offset + len - rest
        invariant Content(g, V(), chain) == Splice(Content(g, v0, chain), offset, Zeros(len - rest))
      {
        var inSector := o % SECTOR_SIZE;
        var n := if rest < SECTOR_SIZE - inSector then rest else SECTOR_SIZE - inSector;
        ghost var v1 := V();
        err := WriteChainRange(chain, o, Zeros(n));
        SpliceTwice(Content(g, v0, chain), offset, Zeros(len - rest), Zeros(n));
        assert Zeros(len - rest) + Zeros(n) == Zeros(len - rest + n);
        o, rest := o + n, rest - n;
      }
      err := None;
    }

    // ---------------------------------------------------------- directories

    /** The bytes of one cluster. */
    function ReadCluster(c: nat): (r: seq<Byte>)
      reads this
      requires Ok() && 2 <= c < g.count + 2
      ensures r == V().data[c]
    {
      ClusterLbaBound(g, c, g.sectorsPerCluster - 1);
      Join(disk, g.ClusterLba(c), g.sectorsPerCluster)
    }

    /** Search one cluster of a directory. `st` is the walk's state behind it. */
    method FindInCluster(c: nat, name: seq<nat>, start: Scan, base: nat, ghost s: seq<nat>, ghost i: nat)
        returns (found: Option<Location>, st: Scan)
      requires Ok() && IsChain(V().fat, s) && i < |s| && c == s[i] && base == Row(i, SlotsPerCluster(g))
      requires base <= |Slots(g, V(), s)| && start == Run(Slots(g, V(), s), base)
      requires !start.ended && NoMatch(start.out, name)
      ensures found.Some? ==> FoundAt(g, V(), s, name, found.value)
      ensures found.None? && st.ended ==> NoMatch(Shown(g, V(), s), name)
      ensures found.None? && !st.ended ==>
                && base + SlotsPerCluster(g) <= |Slots(g, V(), s)|
                && st == Run(Slots(g, V(), s), base + SlotsPerCluster(g)) && NoMatch(st.out, name)
    {
      hide Fits, CopiesAgree, OnlyVolume, FatOf, DataOf, View, IsPath, Slots, Step, Place, Listing, FoundAt, EntryFirst,
        SameName;
      ChainInRange(V().fat, s);
      ghost var slots := Slots(g, V(), s);
      RowMonotone(i, |s|, SlotsPerCluster(g));
      var data := ReadCluster(c);
      st := start;
      var j := 0;
      while j < SlotsPerCluster(g)
        invariant 0 <= j <= SlotsPerCluster(g) && st == Run(slots, base + j) && !st.ended && NoMatch(st.out, name)
      {
        SlotRead(g, V(), s, i, j);
        var e: Slot := data[j * SLOT_SIZE..j * SLOT_SIZE + SLOT_SIZE];
        StepShape(st, e, base + j);
        var next := Step(st, e, base + j);
        if next.ended {
          EndedHere(slots, base + j, name);
          st := next;
          return None, st;
        }
        if |next.out| > |st.out| && SameName(next.out[|st.out|].name, name) {
          FoundHere(g, V(), s, slots, i, j, name, base + j, |st.out|, next.out[|st.out|]);
          return Some(Location(c, j * SLOT_SIZE, EntryFirst(e), U32(e, 28), e[11] / 16 % 2 == 1)), next;
        }
        NoMatchLonger(st.out, next.out, name);
        st, j := next, j + 1;
      }
      found := None;
    }

    /** Find the entry called `name`, comparing without case. `s` is the directory's chain. */
    method FindNamedEntry(directory: nat, name: seq<nat>, ghost s: seq<nat>)
        returns (r: Result<Option<Location>, FatError>)
      requires Ok() && IsChain(V().fat, s) && s[0] == directory
      ensures r.Err? ==> |s| > g.count
      ensures r.Ok? && r.value.Some? ==> FoundAt(g, V(), s, name, r.value.value)
      ensures r.Ok? && r.value.None? ==> NoMatch(Shown(g, V(), s), name)
    {
      hide Fits, CopiesAgree, OnlyVolume, FatOf, DataOf, View, IsPath, Slots, Step, Place, FoundAt, NoMatch;
      ChainInRange(V().fat, s);
      var c, steps, st := directory, 0, Start();
      assert NoMatch(st.out, name) by { NoneMatch(name); }
      while true
        invariant 0 <= steps < |s| && c == s[steps]
        invariant Row(steps, SlotsPerCluster(g)) <= |Slots(g, V(), s)|
        invariant st == Run(Slots(g, V(), s), Row(steps, SlotsPerCluster(g))) && !st.ended && NoMatch(st.out, name)
        decreases |s| - steps
      {
        if steps >= g.count {
          return Err(Corrupt);
        }
        var found;
        found, st := FindInCluster(c, name, st, Row(steps, SlotsPerCluster(g)), s, steps);
        if found.Some? || st.ended {
          return Result.Ok(found);
        }
        steps := steps + 1;
        var next := NextCluster(c);
        ChainNext(V().fat, s, steps - 1);
        if next == End {
          return Result.Ok(None);
        }
        c := next.to;
      }
    }

    /** Walk one cluster of a directory listing. */
    method ListCluster(c: nat, start: Scan, base: nat, ghost s: seq<nat>, ghost i: nat) returns (st: Scan)
      requires Ok() && IsChain(V().fat, s) && i < |s| && c == s[i] && base == Row(i, SlotsPerCluster(g))
      requires base <= |Slots(g, V(), s)| && start == Run(Slots(g, V(), s), base) && !start.ended
      ensures base + SlotsPerCluster(g) <= |Slots(g, V(), s)| && st == Run(Slots(g, V(), s), base + SlotsPerCluster(g))
    {
      hide Fits, CopiesAgree, OnlyVolume, FatOf, DataOf, View, IsPath, Slots, Step;
      ChainInRange(V().fat, s);
      ghost var slots := Slots(g, V(), s);
      RowMonotone(i, |s|, SlotsPerCluster(g));
      var data := ReadCluster(c);
      st := start;
      var j := 0;
      while j < SlotsPerCluster(g)
        invariant 0 <= j <= SlotsPerCluster(g) && st == Run(slots, base + j) && !st.ended
      {
        SlotRead(g, V(), s, i, j);
        var e: Slot := data[j * SLOT_SIZE..j * SLOT_SIZE + SLOT_SIZE];
        st := Step(st, e, base + j);
        j := j + 1;
        if st.ended {
          RunEnded(slots, base + j, base + SlotsPerCluster(g));
          return;
        }
      }
    }

    /** The listing of a directory without its dot entries. Refused exactly when no end marker stands
        in the first million clusters of a longer chain. */
    method DirectoryEntries(directory: nat, ghost s: seq<nat>) returns (r: Result<seq<Item>, FatError>)
      requires Ok() && IsChain(V().fat, s) && s[0] == directory
      ensures r == if Overlong(g, V(), s) then Err(Corrupt) else Result.Ok(NonDot(Shown(g, V(), s)))
    {
      hide Fits, CopiesAgree, OnlyVolume, FatOf, DataOf, View, IsPath, Slots, Step, NonDot;
      ChainInRange(V().fat, s);
      ghost var slots := Slots(g, V(), s);
      var c, steps, st := directory, 0, Start();
      while true
        invariant 0 <= steps < |s| && c == s[steps] && steps <= MAX_CHAIN_STEPS
        invariant Row(steps, SlotsPerCluster(g)) <= |slots|
        invariant st == Run(slots, Row(steps, SlotsPerCluster(g))) && !st.ended
        decreases |s| - steps
      {
        if steps >= MAX_CHAIN_STEPS {
          return Err(Corrupt);
        }
        st := ListCluster(c, st, Row(steps, SlotsPerCluster(g)), s, steps);
        steps := steps + 1;
        if st.ended {
          RunEnded(slots, Row(steps, SlotsPerCluster(g)), |slots|);
          EndedEarly(g, V(), s, steps);
          return Result.Ok(NonDot(st.out));
        }
        var next := NextCluster(c);
        ChainNext(V().fat, s, steps - 1);
        if next == End {
          return Result.Ok(NonDot(st.out));
        }
        c := next.to;
      }
    }

    /** Overwrite the slot of a listed entry. */
    method WriteSlot(ghost s: seq<nat>, ghost n: nat, c: nat, offset: nat, o: nat, piece: seq<Byte>)
      requires Ok() && IsChain(V().fat, s) && n < Row(|s|, SlotsPerCluster(g)) && o < SLOT_SIZE
               && o + |piece| <= SLOT_SIZE
      requires RowOf(n, SlotsPerCluster(g)) < |s| && c == s[RowOf(n, SlotsPerCluster(g))]
      requires offset == ColumnOf(n, SlotsPerCluster(g)) * SLOT_SIZE + o
      modifies this`disk, this`trace
      ensures Ok() && V().fat == old(V()).fat && trace == old(trace) + [V()]
      ensures forall x | 0 <= x < g.count + 2 && x != c :: V().data[x] == old(V()).data[x]
      ensures Slots(g, V(), s) == Slots(g, old(V()), s)[n := Splice(Slots(g, old(V()), s)[n], o, piece)]
    {
      hide Fits, CopiesAgree, OnlyVolume, FatOf, DataOf, View, IsChain, Slots, RowOf, ColumnOf, Row;
      ChainInRange(V().fat, s);
      ghost var i, j := RowOf(n, SlotsPerCluster(g)), ColumnOf(n, SlotsPerCluster(g));
      SlotPlace(g, |s|, i, j);
      ChainNoDup(V().fat, s);
      var _ := WriteDirectoryBytes(c, offset, piece);
      SlotWrite(g, old(V()), s, i, j, o, piece, V());
    }

    /** Set first cluster and size of an entry. */
    method WriteEntryMetadata(loc: Location, first: nat, size: nat, ghost s: seq<nat>, ghost n: nat)
      requires Ok() && IsChain(V().fat, s) && n < Row(|s|, SlotsPerCluster(g))
      requires first < 0x1_0000_0000 && size < 0x1_0000_0000
      requires RowOf(n, SlotsPerCluster(g)) < |s| && loc.cluster == s[RowOf(n, SlotsPerCluster(g))]
      requires loc.offset == ColumnOf(n, SlotsPerCluster(g)) * SLOT_SIZE
      modifies this`disk, this`trace
      ensures Ok() && V().fat == old(V()).fat
      ensures forall x | 0 <= x < g.count + 2 && x != loc.cluster :: V().data[x] == old(V()).data[x]
      ensures Slots(g, V(), s) == Slots(g, old(V()), s)[n := WithMetadata(Slots(g, old(V()), s)[n], first, size)]
    {
      hide Fits, CopiesAgree, OnlyVolume, FatOf, DataOf, View, NextOf, Slots, RowOf, ColumnOf, WithMetadata;
      SlotRead(g, V(), s, RowOf(n, SlotsPerCluster(g)), ColumnOf(n, SlotsPerCluster(g)));
      var entry: Slot := ReadCluster(loc.cluster)[loc.offset..loc.offset + SLOT_SIZE];
      ghost var e := entry;
      entry := WithMetadata(entry, first, size);
      WriteSlot(s, n, loc.cluster, loc.offset, 0, entry);
      assert Splice(e, 0, entry) == entry;
    }

    // ------------------------------------------------------ adding an entry

    /** Mark slot `j` of the `i`-th cluster deleted if the end marker stands at or before it. */
    method TombstoneSlot(ghost v0: Vol, ghost s: seq<nat>, c: nat, ghost i: nat, j: nat, afterEnd: bool,
                         ghost it: Item, ghost t0: seq<Vol>)
        returns (after: bool)
      requires Ok() && VolOk(g, v0) && IsChain(v0.fat, s) && i < |s| && c == s[i] && j < SlotsPerCluster(g)
      requires Tombing(g, v0, V(), s, Row(i, SlotsPerCluster(g)) + j)
      requires afterEnd <==> TailStart(g, v0, s) < Row(i, SlotsPerCluster(g)) + j
      requires QuietTrace(g, v0, s, it, Row(i, SlotsPerCluster(g)) + j, t0, trace)
               && Row(|s|, SlotsPerCluster(g)) <= it.slot
      modifies this`disk, this`trace
      ensures Ok() && Tombing(g, v0, V(), s, Row(i, SlotsPerCluster(g)) + j + 1)
      ensures after <==> TailStart(g, v0, s) < Row(i, SlotsPerCluster(g)) + j + 1
      ensures QuietTrace(g, v0, s, it, Row(i, SlotsPerCluster(g)) + j + 1, t0, trace)
    {
      hide Fits, CopiesAgree, OnlyVolume, FatOf, DataOf, View, IsChain, Slots, EndAt, TailStart, Tombing, QuietTail,
        QuietTrace, QuietTo, DirShows, Shown, Row, ShowsEither;
      ChainInRange(v0.fat, s);
      TombingFat(g, v0, V(), s, Row(i, SlotsPerCluster(g)) + j);
      TombingHere(g, v0, V(), s, i, j);
      var first := ReadCluster(c)[j * SLOT_SIZE];
      after := afterEnd || first == 0;
      if after {
        ghost var v1 := V();
        var _ := WriteDirectoryBytes(c, j * SLOT_SIZE, [DELETED]);
        TombingNext(g, v0, v1, V(), s, i, j, it);
        QuietTraceNext(g, v0, s, it, Row(i, SlotsPerCluster(g)) + j, t0, old(trace), V());
      } else {
        QuietTraceSkip(g, v0, s, it, Row(i, SlotsPerCluster(g)) + j, t0, trace);
      }
    }

    /** Mark every slot from the end marker on deleted, one slot at a time. */
    method TombstoneTail(s: seq<nat>, ghost it: Item)
      requires Ok() && IsChain(V().fat, s) && Row(|s|, SlotsPerCluster(g)) <= it.slot
      modifies this`disk, this`trace
      ensures Ok() && Tombing(g, old(V()), V(), s, Row(|s|, SlotsPerCluster(g)))
      ensures QuietTrace(g, old(V()), s, it, Row(|s|, SlotsPerCluster(g)), old(trace), trace)
    {
      hide Fits, CopiesAgree, OnlyVolume, FatOf, DataOf, View, IsPath, Slots, RowOf, ColumnOf, EndAt, Tombstoned,
        QuietTrace, Tombing, TailStart;
      ghost var v0 := V();
      ChainInRange(v0.fat, s);
      TombingStart(g, v0, s, it, trace);
      var afterEnd := false;
      for i := 0 to |s|
        invariant Ok() && Tombing(g, v0, V(), s, Row(i, SlotsPerCluster(g)))
        invariant afterEnd <==> TailStart(g, v0, s) < Row(i, SlotsPerCluster(g))
        invariant QuietTrace(g, v0, s, it, Row(i, SlotsPerCluster(g)), old(trace), trace)
      {
        var j := 0;
        while j < SlotsPerCluster(g)
          invariant 0 <= j <= SlotsPerCluster(g)
          invariant Ok() && Tombing(g, v0, V(), s, Row(i, SlotsPerCluster(g)) + j)
          invariant afterEnd <==> TailStart(g, v0, s) < Row(i, SlotsPerCluster(g)) + j
          invariant QuietTrace(g, v0, s, it, Row(i, SlotsPerCluster(g)) + j, old(trace), trace)
        {
          afterEnd := TombstoneSlot(v0, s, s[i], i, j, afterEnd, it, old(trace));
          j := j + 1;
        }
      }
    }

    /** Claim `n` clusters, or give all back and fail. */
    method ClaimClusters(n: nat, ghost s: seq<nat>) returns (r: Result<seq<nat>, FatError>)
      requires Ok() && IsChain(V().fat, s)
      modifies this`disk, this`trace, this`fsinfoInvalidated, this`hint
      ensures Ok() && AgreeTrace(g, old(V()), s, old(trace), trace)
      ensures r.Ok? ==> |r.value| == n && Claimed(g, old(V()), V(), r.value, 0)
      ensures r.Err? ==> r.error == NoSpace && V().fat == old(V()).fat
      ensures r.Err? ==> forall c | 0 <= c < g.count + 2 && old(V()).fat[c] != 0 :: V().data[c] == old(V()).data[c]
      ensures r.Err? <==> |FreeSet(old(V()).fat)| < n
    {
      hide Fits, CopiesAgree, OnlyVolume, FatOf, DataOf, View, IsChain, Claimed, AgreeTrace, FreeSet, StepsOff,
        FreedPart;
      ghost var v0 := V();
      var added: seq<nat> := [];
      ClaimedNothing(g, v0, s, trace);
      while |added| < n
        invariant Ok() && |added| <= n && Claimed(g, v0, V(), added, 0) && AgreeTrace(g, v0, s, old(trace), trace)
      {
        ghost var v1, t1 := V(), trace;
        ClaimedParts(g, v0, v1, added, 0);
        ClaimedFree(g, v0, v1, added);
        var c := AllocateCluster();
        if c.Err? {
          NothingFree(v1.fat);
          ReleaseChain(added);
          ClaimedReleased(g, v0, v1, V(), added, s, old(trace), t1, trace);
          return Err(c.error);
        }
        ClaimedMore(g, v0, v1, V(), added, c.value);
        ClaimedTrace(g, v0, v1, added, s, c.value, old(trace), t1, trace);
        added := added + [c.value];
      }
      ClaimedFree(g, v0, V(), added);
      r := Result.Ok(added);
    }

    /** Link the claimed clusters to one another. */
    method LinkClusters(ghost v0: Vol, added: seq<nat>, ghost s: seq<nat>)
      requires Ok() && VolOk(g, v0) && IsChain(v0.fat, s) && Claimed(g, v0, V(), added, 0)
      modifies this`disk, this`trace, this`fsinfoInvalidated
      ensures Ok() && Claimed(g, v0, V(), added, |added|) && AgreeTrace(g, v0, s, old(trace), trace)
    {
      hide Fits, CopiesAgree, OnlyVolume, FatOf, DataOf, View, IsChain, Claimed, AgreeTrace, StepsAmong;
      AgreeTraceStart(g, v0, s, trace);
      var k := 0;
      while k + 1 < |added|
        invariant Ok() && Claimed(g, v0, V(), added, k) && AgreeTrace(g, v0, s, old(trace), trace)
      {
        ghost var v1, t1 := V(), trace;
        ClaimedParts(g, v0, v1, added, k);
        LinkFits(g, added[k + 1]);
        var _ := SetFatEntry(added[k], added[k + 1]);
        ClaimedLink(g, v0, v1, V(), added, k);
        LinkTrace(g, v0, v1, V(), added, k, s, old(trace), t1, trace);
        k := k + 1;
      }
      ClaimedAll(g, v0, V(), added, k);
    }

    /** Write the slots of a new entry into zeroed clusters behind the directory, one write each. */
    method WriteRecords(ghost before: seq<Slot>, ghost s: seq<nat>, added: seq<nat>, recs: seq<Slot>,
                        ghost units: seq<nat>, ghost short: seq<Byte>)
      requires Ok() && s != [] && IsChain(V().fat, s + added) && |before| == Row(|s|, SlotsPerCluster(g))
      requires EntrySlots(recs, units, short) && |recs| < Row(|added|, SlotsPerCluster(g))
      requires Slots(g, V(), s + added) == Written(before, recs, 0, Row(|added|, SlotsPerCluster(g)))
      modifies this`disk, this`trace
      ensures Ok() && V().fat == old(V()).fat
      ensures forall c | 0 <= c < g.count + 2 && c !in added :: V().data[c] == old(V()).data[c]
      ensures Shown(g, V(), s + added) == Listing(before) + [EntryItem(|before|, recs, units)]
      ensures EntryTrace(g, s[0], Listing(before), EntryItem(|before|, recs, units), old(trace), trace)
      ensures Recorded(g, V(), s + added, |before|, recs)
    {
      hide Fits, CopiesAgree, OnlyVolume, FatOf, DataOf, View, IsPath, Slots, RowOf, ColumnOf, Written, AreRecords,
        Acceptable, IsShort, EntryTrace, Listing, Recorded;
      ChainInRange(V().fat, s + added);
      ghost var all, k := s + added, SlotsPerCluster(g);
      ghost var room := Row(|added|, k);
      EntryTraceStart(g, s[0], Listing(before), EntryItem(|before|, recs, units), trace);
      for i := 0 to |recs|
        invariant Ok() && V().fat == old(V()).fat
        invariant forall c | 0 <= c < g.count + 2 && c !in added :: V().data[c] == old(V()).data[c]
        invariant Slots(g, V(), all) == Written(before, recs, i, room)
        invariant EntryTrace(g, s[0], Listing(before), EntryItem(|before|, recs, units), old(trace), trace)
      {
        NewSlotPlace(g, |s|, i, |added|);
        var c := added[RowOf(i * SLOT_SIZE, g.ClusterBytes())];
        ghost var t1 := trace;
        WriteSlot(all, |before| + i, c, ColumnOf(i * SLOT_SIZE, g.ClusterBytes()), 0, recs[i]);
        WrittenNext(before, recs, i, room);
        RecordShows(g, V(), s, all, before, recs, units, short, i + 1, room);
        EntryTraceNext(g, s[0], Listing(before), EntryItem(|before|, recs, units), old(trace), t1, V());
      }
      FullyWritten(before, recs, units, short, room);
      WrittenRecorded(g, V(), all, before, recs, room);
    }

    /** Add an entry to a directory in fresh clusters behind it. Fails exactly when too few clusters
        are free, leaving table and listing as they were. Every single write leaves a directory that
        lists either the old entries or the old entries and the new one, exactly when no record that
        would list stood behind the end marker. */
    method AppendDirectoryRecords(directory: nat, recs: seq<Slot>, ghost units: seq<nat>, ghost short: seq<Byte>,
                                  ghost s: seq<nat>)
        returns (err: Option<FatError>, ghost added: seq<nat>)
      requires Ok() && Linkable(g) && IsChain(V().fat, s) && s[0] == directory && EntrySlots(recs, units, short)
      modifies this`disk, this`trace, this`fsinfoInvalidated, this`hint
      ensures Ok()
      ensures err.None? ==> DirGrown(g, old(V()), V(), s, added, EntryItem(Row(|s|, SlotsPerCluster(g)), recs, units))
      ensures err.None? ==> Recorded(g, V(), s + added, Row(|s|, SlotsPerCluster(g)), recs)
      ensures err.None? ==> |added| == CeilRows((|recs| + 1) * SLOT_SIZE, g.ClusterBytes())
      ensures err.Some? ==> err == Some(NoSpace) && DirKept(g, old(V()), V(), s)
      ensures err.Some? <==> |FreeSet(old(V()).fat)| < CeilRows((|recs| + 1) * SLOT_SIZE, g.ClusterBytes())
      ensures QuietTail(Slots(g, old(V()), s)) <==>
                EntryTrace(g, directory, Shown(g, old(V()), s), EntryItem(Row(|s|, SlotsPerCluster(g)), recs, units),
                  old(trace), trace)
    {
      hide Fits, CopiesAgree, OnlyVolume, FatOf, DataOf, View, IsPath, Slots, RowOf, ColumnOf, Written, AreRecords,
        Acceptable, IsShort, EntryTrace, Listing, FreeSet, CeilRows, DirGrown, DirKept, QuietTail, Tombing, QuietTrace,
        Claimed, AgreeTrace, Grown, StepsAmong, EndAt, Recorded;
      ChainInRange(V().fat, s);
      ghost var v0, before := V(), Slots(g, V(), s);
      ghost var it := EntryItem(Row(|s|, SlotsPerCluster(g)), recs, units);
      var chain := CollectChain(directory);
      ChainUnique(v0.fat, s, chain.value);
      var tail := chain.value[|chain.value| - 1];
      TombstoneTail(chain.value, it);
      ghost var v1, t1 := V(), trace;
      TombedShows(g, v0, v1, s, old(trace), t1, it);
      var needed := CeilRows((|recs| + 1) * SLOT_SIZE, g.ClusterBytes());
      NeededRoom(g, |recs|, needed);
      var claimed := ClaimClusters(needed, s);
      ghost var t2 := trace;
      AgreeShows(g, v1, s, Shown(g, v0, s), it, old(trace), t1, t2);
      if claimed.Err? {
        KeptAfterClaim(g, v0, v1, V(), s);
        TraceQuiet(g, directory, Shown(g, v0, s), it, QuietTail(before), old(trace), t1, trace);
        return Some(claimed.error), [];
      }
      added := claimed.value;
      LinkClusters(v1, claimed.value, s);
      ghost var v3, t3 := V(), trace;
      AgreeShows(g, v1, s, Shown(g, v0, s), it, old(trace), t2, t3);
      ClaimedParts(g, v1, v3, added, |added|);
      LinkFits(g, claimed.value[0]);
      var _ := SetFatEntry(tail, claimed.value[0]);
      ghost var v4, t4 := V(), trace;
      ClaimedChain(g, v1, v3, v4, s, added);
      HungShows(g, v0, v1, v3, v4, s, added, recs, it, old(trace), t3, t4);
      WriteRecords(before, s, claimed.value, recs, units, short);
      EntryTraceJoin(g, directory, Shown(g, v0, s), it, QuietTail(before), old(trace), t4, trace);
      TraceQuiet(g, directory, Shown(g, v0, s), it, QuietTail(before), old(trace), t1, trace);
      GrownDirectory(g, v0, v1, v4, V(), s, added, it);
      err := None;
    }

    // ------------------------------------------------------------ operations

    /** Find `name` in directory `parent` of a checked volume. */
    method Lookup(parent: nat, name: seq<nat>) returns (r: Option<Location>, ghost p: nat)
      requires Valid() && parent in tree.depth && parent in tree.chains && !IsDot(name)
      ensures var items := Shown(g, V(), tree.chains[parent]);
              p == FindItem(items, name, 0) && (r.None? <==> p == |items|) && (r.None? ==> NoMatch(items, name))
      ensures r.Some? ==> Found(g, V(), tree, parent, p, r.value)
    {
      hide Fits, CopiesAgree, OnlyVolume, FatOf, DataOf, View, TreeOk, MembersOk, CoverOk, Shown, IsPath, Found,
        NoMatch;
      ghost var s := tree.chains[parent];
      assert IsChain(V().fat, s) && s[0] == parent;
      ChainLength(V().fat, s);
      var found := FindNamedEntry(parent, name, s);
      p := FindItem(Shown(g, V(), s), name, 0);
      if found.value.Some? {
        FoundEntry(g, V(), tree, parent, name, found.value.value);
      } else {
        NotFoundEntry(Shown(g, V(), s), name);
      }
      return found.value, p;
    }

    /** Fill the gap and write the data of a file whose chain has grown to `grown`. */
    method FillBytes(ghost v0: Vol, ghost t: Tree, ghost d: nat, ghost p: nat, loc: Location, ghost chain: seq<nat>,
                     ghost added: seq<nat>, grown: seq<nat>, offset: nat, data: seq<Byte>, ghost needed: nat)
      requires Ok() && FileEntry(g, v0, t, d, p, loc) && chain == ChainOr(t, loc.first) && grown == chain + added
               && |grown| > 0
      requires Grown(g, v0, V(), chain, added) && data != []
      requires needed == Max(loc.size, offset + |data|) <= 0xffff_ffff && GrewTo(g, chain, grown, needed)
      modifies this`disk, this`trace
      ensures Ok() && DataWritten(g, v0, V(), t, d, p, loc, chain, added, offset, data)
      ensures d in t.chains && IsChain(V().fat, t.chains[d])
      ensures SlotsIn(g, V(), t.chains[d]) == SlotsIn(g, v0, t.chains[d])
    {
      hide Fits, CopiesAgree, OnlyVolume, FatOf, DataOf, View, Shown, IsPath, Found, Fsck, Content, Grown, Splice,
        DataWritten, Slots, SlotsIn, FileAt, GrewTo, FileEntry;
      ghost var v1 := V();
      GrewRoom(g, chain, grown, needed);
      GrownFile(g, v0, v1, t, d, p, loc, chain, added);
      ChainInRange(v1.fat, grown);
      ghost var b := Stored(g, v1, grown);
      if offset > loc.size {
        var _ := WriteZeroRange(grown, loc.size, offset - loc.size);
      }
      ghost var b1 := Stored(g, V(), grown);
      var _ := WriteChainRange(grown, offset, data);
      DataIsWritten(g, v0, v1, V(), t, d, p, loc, chain, added, offset, data, b, b1, Stored(g, V(), grown));
      WriteKeepsSlots(g, v0, v1, V(), t, d, p, loc, chain, added);
    }

    /** ... and then its metadata. */
    method FillEntry(ghost v0: Vol, ghost t: Tree, ghost d: nat, ghost p: nat, loc: Location, ghost chain: seq<nat>,
                     ghost added: seq<nat>, grown: seq<nat>, offset: nat, data: seq<Byte>, needed: nat)
      requires Ok() && FileEntry(g, v0, t, d, p, loc) && chain == ChainOr(t, loc.first) && grown == chain + added
               && |grown| > 0
      requires Grown(g, v0, V(), chain, added) && data != []
      requires needed == Max(loc.size, offset + |data|) <= 0xffff_ffff && GrewTo(g, chain, grown, needed)
      modifies this`disk, this`trace
      ensures Ok() && d in t.chains && p < |Shown(g, v0, t.chains[d])|
      ensures var t' := TreeAfterWrite(t, d, Shown(g, v0, t.chains[d])[p].slot, grown[0], grown);
              Fsck(g, V(), t') && WrotePosition(g, v0, t, V(), t', d, p, offset, data)
    {
      hide Fits, CopiesAgree, OnlyVolume, FatOf, DataOf, View, Shown, IsPath, Found, Fsck, WrotePosition, Content,
        Grown, Splice, DataWritten, Slots, RowOf, ColumnOf, TreeAfterWrite, FileAt, GrewTo;
      FileOk(g, v0, t, d, p, loc);
      FoundNotDot(g, v0, t, d, p, loc);
      ghost var s, items := t.chains[d], Shown(g, v0, t.chains[d]);
      GrownFile(g, v0, V(), t, d, p, loc, chain, added);
      ChainInRange(V().fat, grown);
      FillBytes(v0, t, d, p, loc, chain, added, grown, offset, data, needed);
      ghost var v3 := V();
      FoundPlace(g, v0, t, d, p, loc);
      ChainInRange(v3.fat, s);
      WriteEntryMetadata(loc, grown[0], needed, s, items[p].slot);
      WriteDone(g, v0, v3, V(), t, d, p, loc, chain, added, offset, data, s, items, grown[0], needed);
    }

    /** Write `data` at `offset`, growing the file as needed. */
    method WriteAt(parent: nat, name: seq<nat>, offset: nat, data: seq<Byte>) returns (r: Result<nat, FatError>)
      requires Valid() && parent in tree.depth && parent in tree.chains
      modifies this
      ensures Valid() && parent in tree.depth && parent in tree.chains
      ensures r == match WriteError(g, old(V()), old(tree), Shown(g, old(V()), old(tree).chains[parent]), name, offset,
              |data|)
                   case Some(e) => Err(e)
                   case None => Result.Ok(|data|)
      ensures r.Ok? && data == [] ==> disk == old(disk) && tree == old(tree)
      ensures r.Ok? && data != [] ==> WroteFile(g, old(V()), old(tree), V(), tree, parent, name, offset, data)
      ensures r.Err? ==> tree == old(tree) && Unharmed(g, old(V()), old(tree), V())
      ensures r.Err? && r.error != NoSpace ==> disk == old(disk)
    {
      hide Fits, CopiesAgree, OnlyVolume, FatOf, DataOf, View, TreeOk, HeadsOk, MembersOk, CoverOk, Shown, IsPath,
        Found, Fsck, WroteFile, Unharmed, CeilRows, Grown, FindItem, NoMatch, TreeAfterWrite, WrotePosition, FreeSet;
      if data == [] {
        return Result.Ok(0);
      }
      UnharmedSelf(g, V(), tree);
      var end := offset + |data|;
      if end > 0xffff_ffff {
        return Err(TooLarge);
      }
      if !NameOk(name) {
        return Err(InvalidName);
      }
      var found, p := Lookup(parent, name);
      if found.None? {
        return Err(NotFound);
      }
      var loc := found.value;
      ghost var v0, t := V(), tree;
      ghost var items := Shown(g, v0, t.chains[parent]);
      RemovableFacts(g, v0, t, parent, p, loc);
      if loc.isDir {
        return Err(IsDirectory);
      }
      FileChain(g, v0, t, parent, p, loc);
      var chain := CollectChain(loc.first);
      CollectedFile(g, v0, t, loc.first, chain.value);
      var needed := Max(loc.size, end);
      var grow, grown := EnsureChain(chain.value, CeilRows(needed, g.ClusterBytes()));
      if grow.Err? {
        FailedGrowth(g, v0, V(), t, parent);
        return Err(grow.error);
      }
      GrewEnough(g, chain.value, grown, needed);
      FillEntry(v0, t, parent, p, loc, chain.value, grow.value, grown, offset, data, needed);
      tree := TreeAfterWrite(t, parent, items[p].slot, grown[0], grown);
      WroteIt(g, v0, t, V(), tree, parent, p, name, offset, data);
      WroteKeepsParent(g, v0, t, V(), tree, parent, name, offset, data);
      return Result.Ok(|data|);
    }

    /** Copy `wanted` bytes of a chain from `offset` on. Clusters from number one million on are
        refused. */
    method ReadChain(first: nat, offset: nat, wanted: nat, ghost s: seq<nat>) returns (r: Result<seq<Byte>, FatError>)
      requires Ok() && IsChain(V().fat, s) && s[0] == first && 0 < wanted
               && offset + wanted <= Row(|s|, g.ClusterBytes())
      ensures r == if RowOf(offset + wanted - 1, g.ClusterBytes()) < MAX_CHAIN_STEPS
                   then Result.Ok(Slice(Stored(g, V(), s), offset, offset + wanted)) else Err(Corrupt)
    {
      hide Fits, CopiesAgree, OnlyVolume, FatOf, DataOf, View, IsPath, RowOf, ColumnOf, Content, Row;
      var cb := g.ClusterBytes();
      ghost var b, last := Stored(g, V(), s), RowOf(offset + wanted - 1, cb);
      ChainInRange(V().fat, s);
      RowOfMonotone(offset, offset + wanted - 1, cb);
      PositionInChain(offset + wanted - 1, cb, |s|);
      var skip := RowOf(offset, cb);
      var c, steps := first, 0;
      while skip > 0
        invariant 0 <= skip && steps + skip == RowOf(offset, cb) && c == s[steps] && steps <= MAX_CHAIN_STEPS
      {
        var next := NextCluster(c);
        ChainNext(V().fat, s, steps);
        c := next.to;
        skip := skip - 1;
        steps := steps + 1;
        if steps > MAX_CHAIN_STEPS {
          return Err(Corrupt);
        }
      }
      var inCluster: nat := ColumnOf(offset, cb);
      var out: seq<Byte> := [];
      while |out| < wanted
        invariant |out| <= wanted && offset + |out| <= |b| && out == b[offset..offset + |out|]
        invariant |out| < wanted ==>
                    steps < |s| && c == s[steps] && inCluster < cb
                    && Row(steps, cb) + inCluster == offset + |out|
        invariant |out| == wanted ==> last < MAX_CHAIN_STEPS
        decreases wanted - |out|
      {
        RowOfAt(steps, inCluster, cb);
        RowOfMonotone(offset + |out|, offset + wanted - 1, cb);
        if steps >= MAX_CHAIN_STEPS {
          return Err(Corrupt);
        }
        var data := ReadCluster(c);
        var n := if wanted - |out| < cb - inCluster then wanted - |out| else cb - inCluster;
        PieceRead(g, V(), s, steps, inCluster, n);
        SliceAppend(b, offset, offset + |out|, offset + |out| + n);
        ghost var was := |out|;
        out := out + data[inCluster..inCluster + n];
        if |out| < wanted {
          NextRow(steps, cb, inCluster, n, |s|, offset + was, offset + wanted);
          var next := NextCluster(c);
          ChainNext(V().fat, s, steps);
          c := next.to;
        } else {
          LastRow(steps, cb, inCluster, n, offset + wanted);
        }
        inCluster := 0;
        steps := steps + 1;
      }
      r := Result.Ok(out);
    }

    /** Read up to `len` bytes of the file that entry `it` names. */
    method ReadAt(it: Item, offset: nat, len: nat, ghost d: nat, ghost p: nat) returns (r: Result<seq<Byte>, FatError>)
      requires Valid() && ListsEntry(g, V(), tree, d, p, it)
      ensures r == ReadResult(g, V(), tree, it, offset, len)
    {
      hide Fits, CopiesAgree, OnlyVolume, FatOf, DataOf, View, IsPath, RowOf, ColumnOf, Stored, Row, Fsck, Slice,
        Prefix, ListsEntry;
      if it.isDir {
        return Err(IsDirectory);
      }
      if offset >= it.size || len == 0 {
        return Result.Ok([]);
      }
      EntryChain(g, V(), tree, d, p, it);
      var wanted := if len < it.size - offset then len else it.size - offset;
      StoredLength(g, V(), tree.chains[it.first]);
      SlicePrefix(Stored(g, V(), tree.chains[it.first]), it.size, offset, offset + wanted);
      r := ReadChain(it.first, offset, wanted, tree.chains[it.first]);
    }

    /** Empty a file and free its clusters. */
    method Truncate(parent: nat, name: seq<nat>) returns (err: Option<FatError>)
      requires Valid() && parent in tree.depth && parent in tree.chains
      modifies this
      ensures Valid() && parent in tree.depth && parent in tree.chains
      ensures err == TruncateError(Shown(g, old(V()), old(tree).chains[parent]), name)
      ensures err.None? ==> TruncatedFile(g, old(V()), old(tree), V(), tree, parent, name)
      ensures err.Some? ==> disk == old(disk) && tree == old(tree)
    {
      hide Fits, CopiesAgree, OnlyVolume, FatOf, DataOf, View, TreeOk, HeadsOk, MembersOk, CoverOk, Shown, IsPath,
        Found, Fsck, FindItem, NoMatch, Slots, RowOf, ColumnOf, WithMetadata, TruncatedAt, TruncatedFile, Released,
        FilesKept, DirsKept;
      if !NameOk(name) {
        return Some(InvalidName);
      }
      var found, p := Lookup(parent, name);
      if found.None? {
        return Some(NotFound);
      }
      var loc := found.value;
      ghost var v0, t, s := V(), tree, tree.chains[parent];
      ghost var items := Shown(g, v0, s);
      RemovableFacts(g, v0, t, parent, p, loc);
      if loc.isDir {
        return Some(IsDirectory);
      }
      FileChain(g, v0, t, parent, p, loc);
      var chain := CollectChain(loc.first);
      CollectedFile(g, v0, t, loc.first, chain.value);
      FoundPlace(g, v0, t, parent, p, loc);
      ChainInRange(v0.fat, s);
      WriteEntryMetadata(loc, 0, 0, s, items[p].slot);
      ghost var v1 := V();
      FileClusters(v0.fat, loc.first, chain.value);
      ReleaseChain(chain.value);
      TruncateDone(g, v0, v1, V(), t, parent, p, loc, s, items);
      tree := Released(t, loc.first);
      TruncatedIt(g, v0, t, V(), tree, parent, p, name);
      err := None;
    }

    /** Collect the long-name records and the short record of the entry at `loc`. */
    method FindRecords(s: seq<nat>, loc: Location, ghost k: nat) returns (found: seq<(nat, nat)>)
      requires Ok() && IsChain(V().fat, s) && k < |Slots(g, V(), s)| && Lists(Slots(g, V(), s), k)
      requires (loc.cluster, loc.offset) == PlaceOf(g, s, k)
      ensures PlacesOf(g, s, PendingStart(Slots(g, V(), s), k), k + 1, found)
    {
      hide Fits, CopiesAgree, OnlyVolume, FatOf, DataOf, View, IsChain, Slots, PendingStart, PlaceOf, PlacesOf,
        Gathered, Lists;
      ChainInRange(V().fat, s);
      ChainNoDup(V().fat, s);
      ghost var slots := Slots(g, V(), s);
      var pending: seq<(nat, nat)> := [];
      GatheredNone(g, s, slots);
      var i := 0;
      while i < |s|
        invariant 0 <= i <= |s| && Row(i, SlotsPerCluster(g)) <= k
        invariant Gathered(g, s, slots, Row(i, SlotsPerCluster(g)), pending)
      {
        var data := ReadCluster(s[i]);
        var j := 0;
        while j < SlotsPerCluster(g)
          invariant 0 <= j <= SlotsPerCluster(g) && Row(i, SlotsPerCluster(g)) + j <= k
          invariant Gathered(g, s, slots, Row(i, SlotsPerCluster(g)) + j, pending)
        {
          RecordHere(g, V(), s, i, j, k);
          GatheredNext(g, s, slots, Row(i, SlotsPerCluster(g)) + j, pending);
          var e: Slot := data[j * SLOT_SIZE..j * SLOT_SIZE + SLOT_SIZE];
          if e[0] == 0 {
            break;
          }
          if e[0] == DELETED {
            pending := [];
          } else if IsLfn(e) {
            pending := pending + [(s[i], j * SLOT_SIZE)];
          } else if s[i] == loc.cluster && j * SLOT_SIZE == loc.offset {
            return pending + [(s[i], j * SLOT_SIZE)];
          } else {
            pending := [];
          }
          j := j + 1;
        }
        i := i + 1;
      }
      found := [];
    }

    /** Mark the records at `places`, slots `m` to `n`, deleted. */
    method DeleteRecords(ghost s: seq<nat>, ghost m: nat, ghost n: nat, places: seq<(nat, nat)>)
      requires Ok() && IsChain(V().fat, s) && m <= n <= Row(|s|, SlotsPerCluster(g)) && PlacesOf(g, s, m, n, places)
      modifies this`disk, this`trace
      ensures Ok() && V().fat == old(V()).fat
      ensures forall x | 0 <= x < g.count + 2 && x !in s :: V().data[x] == old(V()).data[x]
      ensures Slots(g, V(), s) == Tombstoned(Slots(g, old(V()), s), m, n)
    {
      hide Fits, CopiesAgree, OnlyVolume, FatOf, DataOf, View, NextOf, Slots, RowOf, ColumnOf, Tombstoned, Deleted;
      ghost var v0, slots := V(), Slots(g, V(), s);
      TombstonesStart(slots, m);
      for x := 0 to |places|
        invariant Ok() && V().fat == v0.fat
        invariant forall y | 0 <= y < g.count + 2 && y !in s :: V().data[y] == v0.data[y]
        invariant Slots(g, V(), s) == Tombstoned(slots, m, m + x)
      {
        assert places[x] == PlaceOf(g, s, m + x);
        TombstonesStep(slots, m, m + x);
        DeleteRecord(s, m + x, places[x]);
      }
    }

    /** Mark the record at slot `n` deleted. */
    method DeleteRecord(ghost s: seq<nat>, ghost n: nat, at: (nat, nat))
      requires Ok() && IsChain(V().fat, s) && n < Row(|s|, SlotsPerCluster(g)) && at == PlaceOf(g, s, n)
      modifies this`disk, this`trace
      ensures Ok() && V().fat == old(V()).fat
      ensures forall x | 0 <= x < g.count + 2 && x !in s :: V().data[x] == old(V()).data[x]
      ensures Slots(g, V(), s) == Slots(g, old(V()), s)[n := Deleted(Slots(g, old(V()), s)[n])]
    {
      hide Fits, CopiesAgree, OnlyVolume, FatOf, DataOf, View, NextOf, Slots, RowOf, ColumnOf, Deleted;
      ghost var k := SlotsPerCluster(g);
      PlaceBound(g, |s|, n);
      SlotRead(g, V(), s, RowOf(n, k), ColumnOf(n, k));
      var entry: Slot := ReadCluster(at.0)[at.1..at.1 + SLOT_SIZE];
      DeletedWhole(entry);
      WriteSlot(s, n, at.0, at.1, 0, Deleted(entry));
    }

    /** Remove a file, or a directory that lists no entries, and free its clusters. */
    method Remove(parent: nat, name: seq<nat>) returns (err: Option<FatError>)
      requires Valid() && parent in tree.depth && parent in tree.chains
      modifies this
      ensures Valid() && parent in tree.depth && parent in tree.chains
      ensures err == RemoveError(g, old(V()), old(tree), Shown(g, old(V()), old(tree).chains[parent]), name)
      ensures err.None? ==> RemovedEntry(g, old(V()), old(tree), V(), tree, parent, name)
      ensures err.Some? ==> disk == old(disk) && tree == old(tree)
    {
      hide Fits, CopiesAgree, OnlyVolume, FatOf, DataOf, View, TreeOk, HeadsOk, MembersOk, CoverOk, Shown, IsPath,
        Found, Fsck, FindItem, NoMatch, Slots, RowOf, ColumnOf, RemovedAt, RemovedEntry, Released, FilesKept, DirsKept,
        PlaceOf, Lists, NonDot, OnlyDots, Tombstoned, PendingStart, Row, NextOf, InRange, Without;
      if !NameOk(name) {
        return Some(InvalidName);
      }
      var found, p := Lookup(parent, name);
      if found.None? {
        return Some(NotFound);
      }
      var loc := found.value;
      ghost var v0, t, s := V(), tree, tree.chains[parent];
      ghost var items := Shown(g, v0, s);
      RemovableFacts(g, v0, t, parent, p, loc);
      if loc.isDir {
        var entries := DirectoryEntries(loc.first, t.chains[loc.first]);
        if entries.Err? {
          return Some(entries.error);
        }
        if entries.value != [] {
          return Some(DirectoryNotEmpty);
        }
      }
      var chain := CollectChain(loc.first);
      CollectedFile(g, v0, t, loc.first, chain.value);
      var dirChain := CollectChain(parent);
      ChainUnique(v0.fat, s, dirChain.value);
      ChainInRange(v0.fat, s);
      PlaceFacts(g, v0, t, parent, p, loc);
      ghost var n := items[p].slot;
      var places := FindRecords(dirChain.value, loc, n);
      if places == [] {
        return Some(Corrupt);
      }
      DeleteRecords(s, PendingStart(Slots(g, v0, s), n), n + 1, places);
      ghost var v1 := V();
      FileClusters(v0.fat, loc.first, chain.value);
      ReleaseChain(chain.value);
      RemoveDone(g, v0, v1, V(), t, parent, p, loc, s, items);
      tree := Released(t, loc.first);
      RemovedIt(g, v0, t, V(), parent, p, name, loc.first);
      err := None;
    }

    /** Create an empty file; an existing file is left alone. `short` is the chosen 8.3 alias. */
    method CreateFile(parent: nat, name: seq<nat>, short: seq<Byte>) returns (err: Option<FatError>)
      requires Valid() && parent in tree.depth && parent in tree.chains && Utf16(name) && ShortOk(short)
      modifies this
      ensures Valid() && parent in tree.depth && parent in tree.chains
      ensures err == CreateFileError(g, old(V()), Shown(g, old(V()), old(tree).chains[parent]), name)
      ensures err.None? && !NoMatch(Shown(g, old(V()), old(tree).chains[parent]), name) ==>
              disk == old(disk) && tree == old(tree)
      ensures err.None? && NoMatch(Shown(g, old(V()), old(tree).chains[parent]), name) ==>
                && AddedEntry(g, old(V()), old(tree), V(), tree, parent,
                     NewFileItem(g, old(tree).chains[parent], name, short))
                && |tree.chains[parent]| == |old(tree).chains[parent]| + DirGrowth(g, name)
                && Spelt(g, V(), tree.chains[parent], Row(|old(tree).chains[parent]|, SlotsPerCluster(g)), name, short,
                     0x20, 0)
      ensures err.Some? ==> tree == old(tree) && Unharmed(g, old(V()), old(tree), V())
      ensures err.Some? && err != Some(NoSpace) ==> disk == old(disk)
      ensures QuietTail(SlotsIn(g, old(V()), old(tree).chains[parent])) || trace == old(trace) <==>
                EntryTrace(g, parent, Shown(g, old(V()), old(tree).chains[parent]),
                           NewFileItem(g, old(tree).chains[parent], name, short), old(trace), trace)
    {
      hide Fits, CopiesAgree, OnlyVolume, FatOf, DataOf, View, TreeOk, HeadsOk, MembersOk, CoverOk, Shown, IsPath,
        Found, Fsck, FindItem, NoMatch, Slots, Unharmed, AddedEntry, DirGrown, DirKept, EntryTrace, QuietTail,
        AreRecords, TreeAfterAdd, BareEntry, FreeSet, CeilRows, IsShort, Acceptable, Recorded, Spelt;
      ghost var v0, t, s := V(), tree, tree.chains[parent];
      ghost var items := Shown(g, v0, s);
      EntryTraceStart(g, parent, items, NewFileItem(g, s, name, short), trace);
      UnharmedSelf(g, v0, t);
      if !NameOk(name) {
        return Some(InvalidName);
      }
      var found, p := Lookup(parent, name);
      MatchIffFound(items, name, p);
      if found.Some? {
        RemovableFacts(g, v0, t, parent, p, found.value);
        return if found.value.isDir then Some(IsDirectory) else None;
      }
      var records := LfnRecords(name, short);
      if records.Err? {
        return Some(records.error);
      }
      var entry := BareEntry(short, ATTR_ARCHIVE);
      FileSlots(records.value, name, short, entry);
      TreeHead(g, v0, t, parent);
      ChainInRange(v0.fat, s);
      ghost var added;
      err, added := AppendDirectoryRecords(parent, records.value + [entry], name, short, s);
      FileItem(g, s, records.value, name, short, entry);
      if err.Some? {
        FailedAppend(g, v0, V(), t, parent);
        return;
      }
      FileCreated(g, v0, V(), t, parent, added, NewFileItem(g, s, name, short));
      ChainAfterAdd(t, parent, added, NewFileItem(g, s, name, short).slot, 0);
      FileSpelt(g, V(), s + added, Row(|s|, SlotsPerCluster(g)), records.value, name, short);
      tree := TreeAfterAdd(t, parent, added, NewFileItem(g, s, name, short).slot, 0);
    }

    /** Claim a cluster for a new directory and write its dot entries. */
    method MakeDirCluster(parent: nat) returns (r: Result<nat, FatError>)
      requires Ok() && parent < g.count + 2
      modifies this`disk, this`trace, this`fsinfoInvalidated, this`hint
      ensures Ok()
      ensures r.Ok? ==> 2 <= r.value < g.count + 2 && old(V()).fat[r.value] == 0
      ensures r.Ok? ==> V() == Vol(old(V()).fat[r.value := EOC],
              old(V()).data[r.value := DirCluster(g.ClusterBytes(), r.value, parent)])
      ensures r.Err? ==> r.error == NoSpace && disk == old(disk) && trace == old(trace)
      ensures r.Err? <==> forall c | 2 <= c < g.count + 2 :: old(V()).fat[c] != 0
    {
      hide Fits, CopiesAgree, OnlyVolume, FatOf, DataOf, View, StepsOff, DirEntry;
      r := AllocateCluster();
      if r.Ok? {
        var _ := WriteDirectoryBytes(r.value, 0, DirEntry(DotName(), r.value));
        var _ := WriteDirectoryBytes(r.value, SLOT_SIZE, DirEntry(DotDotName(), parent));
      }
    }

    /** Create a directory with its dot entries. `short` is the chosen 8.3 alias. */
    method CreateDir(parent: nat, name: seq<nat>, short: seq<Byte>) returns (err: Option<FatError>)
      requires Valid() && parent in tree.depth && parent in tree.chains && Utf16(name) && ShortOk(short)
      modifies this
      ensures Ok() && parent in tree.depth && parent in tree.chains
      ensures Valid() <==> err.Some? || !IsDot(ListedName(name, short))
      ensures !Valid() ==> forall t :: !Fsck(g, V(), t)
      ensures err == CreateDirError(g, old(V()), Shown(g, old(V()), old(tree).chains[parent]), name)
      ensures err.None? && Valid() ==> exists c :: CreatedDir(g, old(V()), old(tree), V(), tree, parent, name, short, c)
      ensures err.None? && Valid() ==> |tree.chains[parent]| == |old(tree).chains[parent]| + DirGrowth(g, name)
      ensures !Valid() ==> tree == old(tree) && exists c, added ::
                EntryGrown(g, old(V()), V(), tree, parent, added, NewDirItem(g, tree.chains[parent], name, short, c), c)
                && DotItems(Shown(g, V(), [c]), c, parent)
      ensures err.Some? ==> tree == old(tree) && Unharmed(g, old(V()), old(tree), V())
    {
      hide Fits, CopiesAgree, OnlyVolume, FatOf, DataOf, View, TreeOk, HeadsOk, MembersOk, CoverOk, Shown, IsPath,
        Found, Fsck, FindItem, NoMatch, Slots, Unharmed, AddedEntry, DirGrown, DirKept, EntryTrace, QuietTail,
        AreRecords, TreeAfterAdd, DirEntry, FreeSet, CeilRows, IsShort, Acceptable, CreatedDir, DirCluster, EntryGrown,
        ListedName, Recorded, Spelt, DotItems;
      ghost var v0, t, s := V(), tree, tree.chains[parent];
      ghost var items := Shown(g, v0, s);
      UnharmedSelf(g, v0, t);
      if !NameOk(name) {
        return Some(InvalidName);
      }
      var found, p := Lookup(parent, name);
      if found.Some? {
        return Some(AlreadyExists);
      }
      TreeHead(g, v0, t, parent);
      var made := MakeDirCluster(parent);
      SomethingFree(v0.fat);
      if made.Err? {
        return Some(made.error);
      }
      var c := made.value;
      ghost var v2, content := V(), DirCluster(g.ClusterBytes(), c, parent);
      FreeAfterClaim(v0.fat, c);
      ClaimedClusterApart(g, v0, v2, t, parent, c);
      var records := LfnRecords(name, short);
      if records.Ok? {
        DirSlotsOk(records.value, name, short, c);
        ghost var added;
        err, added := AppendDirectoryRecords(parent, records.value + [DirEntry(short, c)], name, short, s);
        DirItem(g, s, records.value, name, short, c);
        if err.None? {
          ghost var it := NewDirItem(g, s, name, short, c);
          if IsDot(it.name) {
            DirOrphaned(g, v0, v2, V(), t, parent, added, it, c);
          } else {
            DirCreated(g, v0, v2, V(), t, parent, added, it, c);
            ChainAfterAdd(t, parent, added, it.slot, c);
            DirSpelt(g, V(), s + added, Row(|s|, SlotsPerCluster(g)), records.value, name, short, c);
            tree := TreeAfterAdd(t, parent, added, it.slot, c);
            assert CreatedDir(g, v0, t, V(), tree, parent, name, short, c) by {
              DirIsCreated(g, v0, t, V(), tree, parent, name, short, c);
            }
          }
          return;
        }
      } else {
        err := Some(records.error);
        DirKeptSelf(g, v2, s);
      }
      ghost var v3 := V();
      ReleaseChain([c]);
      FailedCreate(g, v0, v2, v3, V(), t, parent, c, content);
    }

    // ------------------------------------------------------------------ runs

    /** Follow directory names from the root. */
    method ResolveDir(path: seq<seq<nat>>) returns (r: Result<nat, FatError>)
      requires Valid()
      ensures r == Resolved(AllListings(g, V(), tree), LongDirs(g, V(), tree), Some(g.root), path)
      ensures r.Ok? ==> r.value in tree.depth && r.value in tree.chains
    {
      hide Fits, CopiesAgree, OnlyVolume, FatOf, DataOf, View, Shown, IsPath, Found, Fsck, FindItem, NoMatch,
        AllListings, LongDirs, Overlong, NonDot;
      ghost var ls, long := AllListings(g, V(), tree), LongDirs(g, V(), tree);
      RootDirectory(g, V(), tree);
      var cur: Option<nat> := Some(g.root);
      for i := 0 to |path|
        invariant Resolved(ls, long, Some(g.root), path) == Resolved(ls, long, cur, path[i..])
        invariant cur.Some? ==> cur.value in tree.depth && cur.value in tree.chains
      {
        assert path[i..] != [] && path[i..][0] == path[i] && path[i..][1..] == path[i + 1..];
        if path[i] == [] || path[i] == [0x2e] {
          continue;
        }
        if path[i] == [0x2e, 0x2e] {
          return Err(NotFound);
        }
        if cur.None? {
          return Err(NotDirectory);
        }
        ListingOfDir(g, V(), tree, cur.value);
        TreeHead(g, V(), tree, cur.value);
        var entries := DirectoryEntries(cur.value, tree.chains[cur.value]);
        if entries.Err? {
          return Err(entries.error);
        }
        var p := FindItem(entries.value, path[i], 0);
        if p == |entries.value| {
          return Err(NotFound);
        }
        ListedDir(g, V(), tree, cur.value, p);
        cur := if entries.value[p].isDir then Some(entries.value[p].first) else None;
      }
      assert path[|path|..] == [];
      return if cur.Some? then Result.Ok(cur.value) else Err(NotDirectory);
    }

    /** One operation addressed by path, in the order in which the source looks at path, name and data. */
    method Perform(op: Op) returns (err: Option<FatError>)
      requires Valid() && OpOk(op)
      modifies this
      ensures Valid() && Performed(g, op, old(V()), old(tree), V(), tree, err)
    {
      hide Fits, CopiesAgree, OnlyVolume, Fsck, View, Unharmed, AddedEntry, WroteFile, RemovedEntry, TruncatedFile,
        CreatedDir, Linkable, AllListings, LongDirs, Resolved, WriteError, CreateFileError, CreateDirError,
        TruncateError, RemoveError, Shown, NoMatch;
      if op.WriteOp? && op.data == [] {
        return None;
      }
      if op.WriteOp? && op.offset + |op.data| > 0xffff_ffff {
        return Some(TooLarge);
      }
      if op.name == [] || IsDot(op.name) {
        return Some(InvalidName);
      }
      var d := ResolveDir(op.dir);
      if d.Err? {
        return Some(d.error);
      }
      match op {
        case CreateFileOp(_, name, short) => err := CreateFile(d.value, name, short);
        case CreateDirOp(_, name, short) => err := CreateDir(d.value, name, short);
        case WriteOp(_, name, offset, data) =>
          var r := WriteAt(d.value, name, offset, data);
          err := if r.Ok? then None else Some(r.error);
        case TruncateOp(_, name) => err := Truncate(d.value, name);
        case RemoveOp(_, name) => err := Remove(d.value, name);
      }
    }

    /** Any run of operations on a checked volume, failing ones included: every state on the way passes the
        check with all table copies equal, and every operation did what it is for. */
    method RunAll(ops: seq<Op>)
        returns (errs: seq<Option<FatError>>, ghost vols: seq<Vol>, ghost trees: seq<Tree>)
      requires Valid() && forall i | 0 <= i < |ops| :: OpOk(ops[i])
      modifies this
      ensures Valid() && |errs| == |ops| && |vols| == |trees| == |ops| + 1
      ensures vols[0] == old(V()) && trees[0] == old(tree) && vols[|ops|] == V() && trees[|ops|] == tree
      ensures forall i | 0 <= i <= |ops| :: Fsck(g, vols[i], trees[i])
      ensures forall i | 0 <= i < |ops| :: Performed(g, ops[i], vols[i], trees[i], vols[i + 1], trees[i + 1], errs[i])
    {
      hide Fits, CopiesAgree, OnlyVolume, Fsck, View, Performed, Linkable;
      errs, vols, trees := [], [V()], [tree];
      for n := 0 to |ops|
        invariant Valid() && |errs| == n && |vols| == |trees| == n + 1
        invariant vols[0] == old(V()) && trees[0] == old(tree) && vols[n] == V() && trees[n] == tree
        invariant forall i | 0 <= i <= n :: Fsck(g, vols[i], trees[i])
        invariant forall i | 0 <= i < n :: Performed(g, ops[i], vols[i], trees[i], vols[i + 1], trees[i + 1], errs[i])
      {
        var err := Perform(ops[n]);
        errs, vols, trees := errs + [err], vols + [V()], trees + [tree];
      }
    }
  }
}
