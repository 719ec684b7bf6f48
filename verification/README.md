# EonOS: a verified model of the kernel's core

This project models, in Dafny, the parts of the EonOS kernel whose correctness spans several functions or a
whole state machine, and proves what they promise. Hardware, disk and time are plain state: memory frames are
numbered, the disk is a sequence of 512-byte sectors, ticks are a counter. Code that works by changing things is
a class or a method with loops; each is proved against a specification that is stated without it.

`dafny verify dfyconfig.toml` checks everything.

## The subsystems

**FAT32** (`src/fat32.rs`). `FatLayout` gives the volume as an abstract table and cluster contents (`View`) and shows
which of the two each sector write touches. `FatChains`, `FatTree` and `FatVolume` define what a full file-system
check (`Fsck`) asks for: chains reachable from the root are acyclic, disjoint and ended, they cover exactly the used
clusters, every chain but the root's is named by exactly one entry, and all copies of the table agree. `FatDirectory`
and `FatNames` are the directory decoder and the long-name records. `Fat32.dfy` is the driver itself, as a class over
the sectors. It records the volume after every single sector write, so that atomicity can be stated. `FatOrphans` is
about names that list as dot entries, `FatFormatted` about volumes at the edges, and `FatFormat` states the on-disk
format byte by byte, apart from the functions that read and write it. The main results are `RunAll` (the check
survives every run), `WriteAt` with `ReadOverWrite`, `AppendDirectoryRecords` (atomic at every write, and exactly
when), `CreateDir` (exactly when the check survives), `Remove`, and `LongNameRoundTrip`.

**Page tables** (`src/vmm.rs`). `PageEntries` holds the entry formats and the splits of large pages, on records and on
64-bit words, and `PageCodes` shows that the words the source computes decode to the records. `PageTables` gives the
tree its meaning (`View`), `PageOwners` says which table and which page belongs to which address space, `PageSteps`
and `PageSpaces` say what one entry write does to every space at once, and `PageTeardown` what hangs below a table.
`Vmm.dfy` is the manager as a class. `PageRuns` proves that every run refines a flat map from space and page to frame
and flags, conserves frames, and keeps the kernel half shared. `PageNumbers` and `DirectMap` are the direct map,
`ProcessPages` the pages of a process, and `UserCopy` the user copies.

**Frames** (`src/pmm.rs`): `FrameBits` and `Pmm.dfy`, the bitmap allocator with its word-at-a-time paths.

**Scheduler and blocking** (`src/scheduler.rs`, `src/blocking.rs`): `SchedPlaces`, `Scheduler.dfy`, `SchedRuns` and
`Blocking.dfy`. A step is what runs with interrupts off or in one atomic instruction; runs are arbitrary
interleavings.

**Heap** (`src/heap.rs`): `HeapBlocks` (canonical free lists) and `Heap.dfy`, a linked list in memory, as the source
has it.

**Loading** (`src/elf.rs`, `src/process.rs`): `ElfHeaders`, `ElfLoader` and `Stack.dfy`. Loading is specified by what
the process then sees: translations, permissions and bytes.

**xHCI** (`src/drivers/usb/xhci.rs`): `Xhci.dfy`, the producer and consumer of section 4.9 of the xHCI specification,
and `Keyboard.dfy`, the window of report reads; both refine plain queues.

## Where the code differs from what it promises

- A volume of more than 0x0FFFFFEE clusters is mounted, but links to its last clusters read as reserved values.
  `LinksReadBack` is the exact condition; the driver's invariant asks for it (`Linkable`).
- A name with a 0xFFFF unit is accepted and written, and reads back as the units before it, or as the short name.
  `CollectedName` and `LongNameRoundTrip` are exact. Such a name is never found again, and what it reads back as may
  be the name of another entry.
- A directory whose name reads back as "." or "..", for instance U+002E U+FFFF, is skipped like a dot entry: its
  cluster is in use and nothing names it, so the volume no longer passes its check. `CreateDir` and `NoCheckPasses`
  are exact, and `RunAll` asks for no more than that no directory is given such a name.
- An append first deletes the end marker and the slots behind it, so a record that lies behind the marker shows for a
  while. `AppendDirectoryRecords` is atomic exactly when there is none; `LoudTail` is the smallest example.
- `read_at` refuses the part of a file behind a million clusters, and `directory_entries` a directory without an end
  marker in its first million clusters. `ReadChain` and `DirectoryEntries` are exact.
- `Ring::push` does not check for room. `Ring.Push` keeps the ring in order exactly when there is; `Ring.Overwrites` and
  `Ring.Stalls` show what happens without, and the keyboard's window of eight reads always leaves room.
- Loading is meant to map only when nothing can fail any more (lines 25-26 of `src/elf.rs`), but mapping takes frames for
  page tables and panics without them. `Load` states exactly when, and `Shortfall` that it does whenever
  there are just enough frames for the pages.
- In the heap, `align_up` overflows for alignments of 2^31 and more; `AlignUpOverflow` is exact. A build that wraps
  around still finds that no block fits, as in the model; a build with overflow checks panics.
- `map4k` overwrites a mapped page without asserting (lines 259-264 of `src/vmm.rs`), other than the comment on
  `map_mmio` says; the model overwrites.
- A split leaves slivers of eight bytes that `dealloc` never returns; the heap's invariant accounts for them as lost.
- An argument that holds a NUL byte is passed on cut short; `StackRoundTrip` is exact.

## Model

| member | source | states |
|---|---|---|
| `FatLayout.Mount` | src/fat32.rs:69-142 | A boot sector that is accepted puts the reserved area, every copy of the table and every cluster inside the device, in that order and without overlap, with the root cluster among the data clusters. |
| `FatFormat.MountReads` | src/fat32.rs:69-142 | A boot sector written field by field, at the offsets of the FAT32 File System Specification 1.03, mounts with exactly the geometry of its fields; otherwise it is refused as unsupported or as inconsistent, exactly under the conditions stated on the fields. |
| `FatFormat.NoSignature` | src/fat32.rs:69-142 | A sector without the signature 0x55, 0xAA is never mounted. |
| `FatFormat.TableEntry` | src/fat32.rs:176-189 | The entry of cluster c in copy k of the table is the 28-bit number in the four bytes at byte 4c of that copy, least significant byte first. |
| `FatFormat.ClusterByte` | src/fat32.rs:258-280 | Byte o of cluster c is the byte of the disk that many bytes behind the tables and the clusters before it. |
| `Bytes.LittleEndian` | src/fat32.rs:61-66 | Numbers are read with the least significant byte first. |
| `FatLayout.FatSectorWrite` | src/fat32.rs:191-213 | Patching one table sector changes exactly one entry of one copy of the table, keeps the four reserved bits of every entry in every copy, and touches no cluster. |
| `FatLayout.DataSectorWrite` | src/fat32.rs:258-265 | Writing one sector of a cluster changes that stretch of that cluster and nothing else: no other cluster and no table entry of any copy. This is where the address arithmetic of clusters is shown to be injective. |
| `FatChains.ChainUnique` | src/fat32.rs:683-692 | The table determines the chain of a head: two complete runs over the links from the same cluster are equal. |
| `FatChains.ChainNoDup` | src/fat32.rs:242-256 | A chain that reaches an end mark visits no cluster twice, so chains are acyclic. |
| `FatChains.ChainLength` | src/fat32.rs:683-692 | A chain has at most as many clusters as the volume, which is why the step limits of `collect_chain` and `find_named_entry` never cut a real chain short. |
| `FatChains.LinksReadBack` | src/fat32.rs:242-256 | Every cluster number of the volume can be stored as a link and read back if and only if the table has at most 0x0FFFFFF0 entries; a larger volume, which `mount` accepts, has clusters whose numbers read as reserved values. |
| `FatFormatted.AcceptedButNotLinkable` | src/fat32.rs:69-142 | A concrete boot sector that `mount` accepts with 0x0FFFFFF5 clusters, more than can be linked. |
| `FatFormatted.FormattedPasses` | src/fat32.rs:69-142 | A freshly formatted volume, with nothing but an empty root directory, passes the check. |
| `FatFormatted.CanFormat` | src/fat32.rs:69-142 | Every geometry that `mount` accepts has such a volume, so the invariant can be met. |
| `FatTree.AllReachable` | src/fat32.rs:362-402 | In a volume that passes the check every chain is reached from the root by following directory entries; the lemma returns the path. |
| `FatTree.FirstsDistinct` | src/fat32.rs:282-360 | Two different entries of a checked volume, wherever they stand, never name the same chain. |
| `FatVolume.DirShowsUnique` | src/fat32.rs:282-360 | The listing of a directory is determined by the volume alone. |
| `FatDirectory.RunEndsIff` | src/fat32.rs:282-360 | The directory walk stops exactly at the first slot whose first byte is zero, whatever the slots before it hold. |
| `FatDirectory.ListingItems` | src/fat32.rs:282-360 | Every listed item comes from one slot that holds a live short record, in order of position, with the name, size and first cluster decoded there. |
| `FatFormat.ListsIff` | src/fat32.rs:295-328 | Which slots list, by their bytes: those before the first zero first byte that are neither deleted (0xE5), nor long-name records (attributes 0x0F), nor volume labels (attribute bit 3). |
| `FatFormat.ItemBytes` | src/fat32.rs:326-354 | What a listed slot says, by its bytes: directory bit, size, the two halves of the first cluster, and the short name where no long one was collected. |
| `FatFormat.ShortNameReads` | src/fat32.rs:947-966 | A base and an extension padded with spaces to eight and three bytes read back as base, dot, extension, without the dot if there is no extension. |
| `FatFormat.NonDotIff` | src/fat32.rs:345-347 | Every item of the listing but those named "." and ".." is returned, as often as it is listed. |
| `FatFormat.NonDotOrder` | src/fat32.rs:345-354 | They are returned in order of their slots. |
| `FatFormat.MetadataBytes` | src/fat32.rs:675-681 | Writing first cluster and size puts them at bytes 20, 26 and 28 of the record and leaves every other byte. |
| `FatFormat.SameNameIff` | src/fat32.rs:544-556 | Names match exactly when they agree unit by unit up to the case of ASCII letters. |
| `FatDirectory.RemovalRun` | src/fat32.rs:815-848 | Marking an entry's short record and the long-name records collected for it deleted takes exactly that entry off the listing and leaves all others as they were. |
| `FatDirectory.MetadataRun` | src/fat32.rs:675-681 | Rewriting first cluster and size in a short record changes those two fields of that one item of the listing and nothing else. |
| `FatNames.LfnRecords` | src/fat32.rs:908-945 | Refuses exactly the names that are empty, too long or hold a forbidden unit; otherwise the records spell the name from the last part to the first, padded and checksummed as section "Long Directory Entries" of the FAT32 File System Specification 1.03 asks. The next rows state its parts in the terms of that section. |
| `FatFormat.ForbiddenUnits` | src/fat32.rs:913-915 | The forbidden units are the control characters and the nine characters listed. |
| `FatFormat.NamesRefused` | src/fat32.rs:476-493 | Of the names of ASCII characters exactly these are refused by the path: the empty one, ".", "..", those that end in a dot or a space, and those with one of eight characters. |
| `FatFormat.RecordBytes` | src/fat32.rs:923-943 | Each record, byte by byte: its number with bit 6 on the last part of the name, attributes, type, checksum, cluster, and thirteen units, a zero behind the name and all ones behind that. |
| `FatNames.RecordCount` | src/fat32.rs:916 | A name takes the fewest records of thirteen units that hold it and a zero unit. |
| `FatFormat.UnitPositions` | src/fat32.rs:921 | The thirteen units of a record stand at bytes 1 to 10, 14 to 25 and 28 to 31. |
| `FatFormat.ChecksumRotates` | src/fat32.rs:917-920 | Each step of the checksum rotates the sum right by one bit and adds the next byte of the short name, modulo 256. |
| `FatFormat.ChecksumLast` | src/fat32.rs:917-920 | The checksum starts at zero and takes the bytes of the short name in order. |
| `FatNames.LongNameRoundTrip` | src/fat32.rs:294-356 | For every acceptable name of 1 to 255 units, its records followed by a short record decode, at any position of a directory and across any cluster boundary, to one new item, whose name is the units before the first 0xFFFF, or the short name if there are none: the original name if and only if no unit is 0xFFFF. Both directory readers run this decoder. |
| `FatNames.CollectedName` | src/fat32.rs:329-343 | A collected long name reads as the units before the first 0xFFFF, which the decoder takes for padding, or as the short name when that leaves nothing. |
| `FatNames.ListedAsItself` | src/fat32.rs:329-343 | That is the name itself exactly when it holds no 0xFFFF unit. |
| `FatOrphans.DotInDisguise` | src/fat32.rs:476-493 | Only a name with a 0xFFFF unit can be accepted and yet list as "." or ".."; the two units 0x2E, 0xFFFF are such a name. |
| `FatOrphans.NoCheckPasses` | src/fat32.rs:781-812 | Once a directory has been added under a name that lists as "." or "..", no bookkeeping makes the volume pass the check: every chain that is still reachable was there before, so the new cluster is in use and belongs to nothing. |
| `FatOrphans.DirOrphaned` | src/fat32.rs:781-812 | The directory so added holds its two dot entries, which name itself and its parent, and no bookkeeping makes the volume pass. |
| `FatVolume.TailDeleted` | src/fat32.rs:602-649 | While the slots behind the end marker are marked deleted one after the other the listing never changes, if none of them holds a record that would list. |
| `FatVolume.WholeTailDeleted` | src/fat32.rs:602-649 | Once all of them are marked the listing is the old one, even if something live stood behind the marker. |
| `FatVolume.TailShows` | src/fat32.rs:602-649 | If one of them does hold such a record, the record lists once everything before it is marked. |
| `FatVolume.LoudTail` | src/fat32.rs:602-649 | The smallest such directory: an end marker, then a record. Its listing is empty, then not, then empty again. |
| `FatVolume.PartWritten` | src/fat32.rs:602-649 | As long as the short record of a new entry has not been written, the entry does not show. |
| `FatVolume.FullyWritten` | src/fat32.rs:602-649 | Once it has, the listing is the old one plus exactly the new entry. |
| `FatFsck.FsckWrite` | src/fat32.rs:862-888 | The file-system check survives a write: growing a file's chain by free clusters and rewriting its entry keeps all chains acyclic, disjoint, ended, reachable and covering exactly the used clusters, and leaves every other file and directory as it was. |
| `FatFsck.FsckTruncate` | src/fat32.rs:851-858 | The check survives emptying a file and freeing its chain. |
| `FatFsck.FsckRemove` | src/fat32.rs:815-848 | The check survives removing a file, or a directory that lists nothing but its dot entries. |
| `FatFsck.FsckAdd` | src/fat32.rs:766-812 | The check survives adding an empty file under any name, or a directory that lists only its dot entries under a name that does not list as a dot entry, to a directory that grew by free clusters. |
| `FatFsck.WriteMeansOverwrite` | src/fat32.rs:862-888 | Zeroing the gap behind the old end and then writing the data makes the file read as its old content zero-extended to the offset and spliced with the data. |
| `FatWrite.ReadOverWrite` | src/fat32.rs:436-474 | After a successful write, reading any stretch below a million clusters gives exactly that slice of the overwritten content. |
| `FatWrite.FailedGrowth` | src/fat32.rs:702-730 | A growth that ran out of space and was rolled back leaves a checked volume with the same free set, the same chains up to how their end is marked, and every file and listing as before. |
| `FatCreate.FailedAppend` | src/fat32.rs:602-649 | A directory append that found no space leaves all of that as it was, too. |
| `FatCreate.FailedCreate` | src/fat32.rs:781-812 | So does a directory creation that had already claimed and filled a cluster. |
| `Fat32Driver.Fat32.constructor` | src/fat32.rs:69-142 | The driver of a mounted volume that passes the check starts in its invariant. Part of the invariant is that no sector outside tables and clusters ever differs from what was mounted, but for the two free-space hints. |
| `Fat32Driver.Fat32.InvalidateFsinfoHint` | src/fat32.rs:154-174 | Overwrites the two free-space hints with 0xFF bytes, exactly when there is an information sector with its three signatures and it has not been done before; no other byte of the disk changes, and it is invisible at every write. |
| `Fat32Driver.Fat32.FatEntry` | src/fat32.rs:176-189 | Reads the 28-bit entry of a cluster from the sector that holds it, and refuses numbers outside the volume. |
| `Fat32Driver.Fat32.SetFatEntry` | src/fat32.rs:191-213 | Sets one entry in every copy of the table, so that all copies still agree, and keeps all reserved bits; at each single sector write the volume is the old or the new one. |
| `Fat32Driver.Fat32.AllocateCluster` | src/fat32.rs:215-231 | Claims and zeroes the first free cluster from the hint on, wrapping around, and moves the hint behind it; fails, changing nothing, exactly when no cluster is free. At every single write the volume differs only in that cluster. |
| `Fat32Driver.Fat32.NextCluster` | src/fat32.rs:242-256 | Decodes an entry as link, end of chain or damage, as the specification of the chains has it. |
| `Fat32Driver.Fat32.CollectChain` | src/fat32.rs:683-692 | Returns the chain of a head, and fails exactly when that head has no chain that ends. |
| `Fat32Driver.Fat32.ReleaseChain` | src/fat32.rs:694-700 | Frees exactly the clusters given, in every copy of the table, and no cluster's contents change. |
| `Fat32Driver.Fat32.RollbackChainGrowth` | src/fat32.rs:702-708 | Frees exactly the clusters behind the original length and ends the chain there again. |
| `Fat32Driver.Fat32.EnsureChain` | src/fat32.rs:710-730 | Grows a chain to the length asked for by zeroed clusters that were free, or fails exactly when free clusters and chain together do not reach that length, with chains, free set and all used contents as they were. |
| `Fat32Driver.Fat32.WriteChainRange` | src/fat32.rs:732-750 | Overwrites exactly the given bytes of a chain, across sector and cluster boundaries, and no cluster outside it; bytes behind the chain's end are refused. |
| `Fat32Driver.Fat32.WriteZeroRange` | src/fat32.rs:752-762 | Zeroes exactly the given bytes of a chain. |
| `Fat32Driver.Fat32.FindNamedEntry` | src/fat32.rs:520-566 | Finds the first item of the listing with the name, case aside, and where its short record is stored; `None` means no item has it. |
| `Fat32Driver.Fat32.DirectoryEntries` | src/fat32.rs:282-360 | Returns the listing without dot entries, and refuses exactly the directories that go on, without an end marker, behind the first million clusters. |
| `Fat32Driver.Fat32.WriteEntryMetadata` | src/fat32.rs:675-681 | Rewrites first cluster and size of one slot; every other slot and cluster stays. |
| `Fat32Driver.Fat32.WriteDirectoryBytes` | src/fat32.rs:651-659 | Overwrites part of one sector of a cluster in one write and refuses a piece that would cross a sector. |
| `Fat32Driver.Fat32.AppendDirectoryRecords` | src/fat32.rs:602-649 | For every acceptable name: the records of the name and then the short record stand one behind the other, byte for byte, where the directory ended; the directory has grown by exactly as many clusters as they need, and lists exactly one more entry, under the name it lists as. Or it fails with no space, listing unchanged, exactly when too few clusters are free. After every single sector write the directory lists its old items, or its old items and the new one, if and only if no record that would list stood behind the end marker. |
| `Fat32Driver.Fat32.WriteAt` | src/fat32.rs:862-888 | Fails exactly for the stated reasons, and then harms nothing. On success the file's bytes are the old ones zero-extended to the offset and spliced with the data, its entry has the new size, its chain has grown by exactly the clusters that takes, all other files and directories are unchanged, and the volume passes the check. |
| `Fat32Driver.Fat32.ReadChain` | src/fat32.rs:436-474 | Reads across clusters exactly the requested stretch of a chain, and fails exactly when the last byte lies at or behind the millionth cluster. |
| `Fat32Driver.Fat32.ReadAt` | src/fat32.rs:436-474 | Returns exactly the part of the file's bytes that the request covers, cut at the file's size. |
| `Fat32Driver.Fat32.Truncate` | src/fat32.rs:851-858 | Empties exactly the named file, frees its clusters and no other, and changes nothing when it fails. |
| `Fat32Driver.Fat32.FindRecords` | src/fat32.rs:823-842 | Finds the places of exactly the entry's short record and the live long-name records directly before it. |
| `Fat32Driver.Fat32.Remove` | src/fat32.rs:815-848 | Marks exactly the named entry's short record and the long-name records directly before it deleted, which takes exactly that entry off the listing, changes no other byte of the directory, frees exactly its clusters, keeps every other file and directory; refuses a directory that lists entries; changes nothing when it fails. |
| `Fat32Driver.Fat32.CreateFile` | src/fat32.rs:766-778 | For every name: keeps the check, adds exactly one empty file under the name it lists as, whose records are on the disk byte for byte, in exactly the clusters they need; leaves an existing entry alone, harms nothing when it fails, and is atomic over its sector writes exactly when the append is. |
| `Fat32Driver.Fat32.CreateDir` | src/fat32.rs:781-812 | For every name: adds exactly one directory, whose own listing is "." with its own cluster and ".." with that of its parent, both marked as directories, and nothing else; or harms nothing and gives the claimed cluster back. The records of its name are on the disk byte for byte. The volume passes the check afterwards if and only if the call failed or the name does not list as "." or ".."; otherwise nothing makes it pass. |
| `Fat32Driver.Fat32.ResolveDir` | src/fat32.rs:362-402 | Follows names from the root through the listings, with the source's treatment of empty, dot and dot-dot components, files on the way and directories too long to list. |
| `Fat32Driver.Fat32.Perform` | src/fat32.rs:766-888 | One operation given by its path: the parent is found, the operation does there what is stated for it above, or reports the first thing wrong in the order in which the source looks. |
| `Fat32Driver.Fat32.RunAll` | src/fat32.rs:766-888 | Any run of creations, writes, truncations and removals, failing ones included, in which no directory gets a name that lists as "." or "..", on a volume that passes the check: the volume passes it, with all copies of the table equal, after every operation, and each operation does what is stated for it. |
| `PageEntryBits.Split2MAddress` | src/vmm.rs:164-181 | On 64-bit words: splitting a 2 MiB page maps every address inside it to the physical address it had. |
| `PageEntryBits.Split2MFlags` | src/vmm.rs:164-181 | It keeps every flag bit, clears the page-size bit and moves the PAT bit from bit 12 to bit 7. |
| `PageEntryBits.Split1GAddress` | src/vmm.rs:185-199 | Splitting a 1 GiB page into 2 MiB pages maps every address to the physical address it had. |
| `PageEntryBits.Split1GFlags` | src/vmm.rs:185-199 | It keeps every flag bit and leaves PAT at bit 12, as the 2 MiB entries are large pages still. |
| `PageCodes.EncodeDecode` | src/vmm.rs:12-62 | Every 64-bit entry is the code of its record. |
| `PageCodes.DecodeEncode` | src/vmm.rs:12-62 | Every record whose fields fit is the record of its code. |
| `PageCodes.Map4KCode` | src/vmm.rs:259-264 | For every physical address and all flags, the word that `map4k` computes decodes to the leaf record that the model writes. |
| `PageCodes.Map2MCode` | src/vmm.rs:266-276 | The same for `map2m`, whose address is cut down to its 2 MiB page. |
| `PageCodes.ProtectCode` | src/vmm.rs:343-355 | The same for `protect_page` and `protect`, which keep the frame of the leaf. |
| `PageCodes.TableCode` | src/vmm.rs:147-159 | The same for the entry of a table. |
| `PageCodes.Split2MCode` | src/vmm.rs:164-181 | Every word that `split_huge` writes decodes to the record of the model's split. |
| `PageCodes.Split1GCode` | src/vmm.rs:185-199 | Every word that `split_1g_huge` writes does, too. |
| `PageCodes.FlagsDecode` | src/vmm.rs:21-52 | The flag constants of the source decode to the permissions of the model. |
| `PageEntries.Split2MKeeps` | src/vmm.rs:164-181 | The split keeps frame, permissions and memory type of each of the 512 pages. |
| `PageEntries.Split1GKeeps` | src/vmm.rs:185-199 | Likewise one level up. |
| `PageEntries.PageOfUnique` | src/vmm.rs:138-140 | Two 48-bit addresses have the same four table indices if and only if they lie in the same page. |
| `PageTables.WalkIsView` | src/vmm.rs:358-386 | The software walk returns exactly the byte of the frame that the tree maps the page to, through 4 KiB, 2 MiB and 1 GiB leaves, and nothing for an unmapped page. |
| `PageTables.LocalChange` | src/vmm.rs:147-199 | Replacing an entry by a table that stands for it changes no translation anywhere in the forest of tables. |
| `PageTables.EntryChangeFromRoot` | src/vmm.rs:227-264 | Writing one entry changes no page, of any address space, whose walk does not come past it. |
| `PageSpaces.SeesSame` | src/vmm.rs:964-978 | All spaces that see a page translate it alike. |
| `PageSpaces.LackingPlaces` | src/vmm.rs:147-159 | The tables that a walk to a page finds missing, none to three, are as many as the places of its path that have no table: this is how many frames mapping the page takes. |
| `VirtualMemory.AddressSpaces.constructor` | src/vmm.rs:556-630 | An empty root maps nothing. |
| `VirtualMemory.AddressSpaces.AllocFrame` | src/vmm.rs:147-159 | Takes one free frame, which no table and no page uses; fails exactly when none is free. |
| `VirtualMemory.AddressSpaces.ChildTable` | src/vmm.rs:147-159 | Comes to the table behind an entry, hanging in a zeroed one, and taking one frame, exactly where there was none; no translation changes. |
| `VirtualMemory.AddressSpaces.SplitHuge` | src/vmm.rs:164-181 | Replaces a 2 MiB leaf by a table, in memory, and every translation of every address space stays. |
| `VirtualMemory.AddressSpaces.Split1GHuge` | src/vmm.rs:185-199 | The same for a 1 GiB leaf. |
| `VirtualMemory.AddressSpaces.PdFor` | src/vmm.rs:201-209 | Comes to a page directory, splitting or creating as needed, and no translation changes. |
| `VirtualMemory.AddressSpaces.PtFor` | src/vmm.rs:214-222 | The same one level down. |
| `VirtualMemory.AddressSpaces.LeafFor` | src/vmm.rs:227-257 | Finds the last-level entry of a page exactly when the page is mapped, after splitting whatever large page held it; the entry then says what the page translated to, and no translation has changed. It takes one frame for each large page it splits. |
| `VirtualMemory.AddressSpaces.Map4K` | src/vmm.rs:259-264 | Changes the translation of exactly one page, in exactly the spaces that see it, and keeps every other page of every space; a mapped kernel page is overwritten. Takes one frame for each missing table and no other. |
| `VirtualMemory.AddressSpaces.Map2M` | src/vmm.rs:266-276 | Changes the translation of exactly the 512 pages of one block, where no page table was in the way, and takes one frame for each missing table. |
| `VirtualMemory.AddressSpaces.MapPage` | src/vmm.rs:278-285 | Maps one kernel page, seen at once by every space that shares its slot; takes one frame for each missing table and no other. |
| `VirtualMemory.AddressSpaces.UnmapPage` | src/vmm.rs:328-339 | Unmaps exactly one kernel page, out of a large page if need be, and returns its frame exactly when it was mapped; it takes one frame for each large page on the way, none to two. |
| `VirtualMemory.AddressSpaces.ProtectPage` | src/vmm.rs:343-355 | Gives exactly one kernel page exactly the permissions asked for, keeps its frame, takes one frame for each large page on the way, and refuses unknown flags and unmapped pages. |
| `VirtualMemory.AddressSpaces.Translate` | src/vmm.rs:731-733 | The walk agrees with the tree. |
| `VirtualMemory.AddressSpaces.Create` | src/vmm.rs:964-978 | A new space has an empty lower half and, in the kernel's slots of that moment, the kernel's translations; no other space changes. It fails exactly when no frame is left. |
| `VirtualMemory.AddressSpaces.Map` | src/vmm.rs:678-694 | Maps exactly one page of one space; all other pages of all spaces stay, and only missing tables take frames. |
| `VirtualMemory.AddressSpaces.Unmap` | src/vmm.rs:698-708 | Unmaps exactly one page of one space and hands its frame back; it takes no frame. |
| `VirtualMemory.AddressSpaces.Protect` | src/vmm.rs:713-727 | Gives exactly one page of one space exactly the permissions asked for, or changes nothing; it takes no frame. |
| `VirtualMemory.AddressSpaces.FreePt` | src/vmm.rs:789-798 | Frees exactly the table and the pages it maps, each once. |
| `VirtualMemory.AddressSpaces.FreePd` | src/vmm.rs:773-787 | Frees exactly the tables and pages below a page directory, each once. |
| `VirtualMemory.AddressSpaces.FreePdpt` | src/vmm.rs:757-771 | The same one level up. |
| `VirtualMemory.AddressSpaces.FreeUserHalf` | src/vmm.rs:746-755 | Frees exactly what a space owns and no table of the kernel half. |
| `VirtualMemory.AddressSpaces.Drop` | src/vmm.rs:736-743 | Frees exactly the frames the space owned, none of which was free, and leaves every other space as it was. |
| `PageRuns.RefinesSet` | src/vmm.rs:259-264 | One page write in the tables is one update of the flat map from space and page to frame and flags. |
| `PageRuns.RefinesNew` | src/vmm.rs:964-978 | A created space adds an empty lower half and the kernel's slots of the moment to the flat map. |
| `PageRuns.RefinesGone` | src/vmm.rs:736-743 | A dropped space leaves the flat map of the others alone. |
| `PageRuns.Run` | src/vmm.rs:654-798 | Any run of map, unmap, protect, create and drop, kernel and user, up to the first call that the source panics on: the tables refine the flat map that the same calls give, the set of frames is conserved, and none is both free and in use. A call is such only if an assertion fails or there are fewer free frames than tables it must make. |
| `PageRuns.LiveKernelHalf` | src/vmm.rs:964-978 | In every state of every run a live space translates kernel addresses in the slots it got at its creation exactly as the kernel does, later kernel maps and unmaps included. |
| `DirectMap.MergeRanges` | src/vmm.rs:489-509 | Sorts and merges in place: the result covers exactly the same bytes, sorted, with a gap between any two ranges. |
| `DirectMap.MergedOk` | src/vmm.rs:489-509 | The merging of sorted ranges, as a function: same bytes, and no two results touch. |
| `DirectMap.NoTableHere` | src/vmm.rs:266-276 | Where no frame of a block is mapped there is no page table, so the assertion against overwriting one cannot fire. |
| `DirectMap.MapHhdmRange` | src/vmm.rs:513-524 | Adds exactly the frames of one range to the direct map, with 2 MiB pages wherever a whole one fits, given frames for the tables still missing. |
| `DirectMap.BuildDirectMap` | src/vmm.rs:556-630 | After merging and mapping, the walk sends offset plus p to p, writable and not executable, for exactly the bytes p of the input ranges, and everything else in the window to nothing. It needs one frame for each table that the ranges use and that is missing. |
| `DirectMap.EnoughFrames` | src/vmm.rs:556-630 | Two frames for each range, one for each gigabyte below the highest address, one for each 512 GiB and four more are enough, whatever the ranges. |
| `DirectMap.SmallMachine` | src/pmm.rs:317-342 | A machine of 128 MiB whose free frames all lie inside the range to be mapped meets that condition. |
| `DirectMap.EmptyDirect` | src/vmm.rs:556-630 | The tables as `init` starts them hold no direct map, as building it asks. |
| `UserCopy.UserMemory.ValidateUserRange` | src/vmm.rs:903-930 | True exactly when the range lies in user space, 64-bit overflow included, and the translation of every page of it is open to the user and, for a write, writable. That is said of the translation of the space; that the walk of the source, which asks at every level, agrees with it is proved. |
| `UserCopy.UserMemory.CopyToUser` | src/vmm.rs:873-897 | True exactly when the translations of the whole range allow the user to write; then the physical bytes behind the range are the source bytes and all others are as before. Otherwise memory is unchanged. The copy never fails after validation. |
| `UserCopy.UserMemory.CopyFromUser` | src/vmm.rs:840-864 | True exactly when the translations of the whole range allow the user to read, and then the buffer holds the physical bytes behind them; otherwise the buffer is unchanged. |
| `UserCopy.UserFrameIsView` | src/vmm.rs:807-829 | For every page and both kinds of access: the walk of the source, with its checks at each of the four levels, gives a frame exactly when the translation of the page is open to the user and, for a write, writable; and it gives the frame of that translation. |
| `UserCopy.ByteOnView` | src/vmm.rs:807-829 | The same for single bytes, and for the place in memory that they have. |
| `UserCopy.RoundTrip` | src/vmm.rs:840-897 | In every process, copying out and in again returns the same bytes. |
| `UserCopy.OwnedIsDistinct` | src/vmm.rs:807-829 | In every reachable memory the bytes of a process stand on distinct physical bytes, none of them in a page table, so the round trip's condition always holds. |
| `FrameBits.FillRange` | src/pmm.rs:125-149 | Sets or clears exactly the bits of the range, whole words at a time where it can. |
| `FrameBits.LowestClear` | src/pmm.rs:183-201 | The trailing-zero count of the complement is the position of the lowest clear bit. |
| `FrameAllocator.Pmm.AllocOne` | src/pmm.rs:183-201 | For any hint, takes the lowest free frame of the first word, from the hint on and round the bitmap, that has one, and leaves the hint there; fails exactly when the free count is zero. |
| `FrameAllocator.Pmm.AllocContiguous` | src/pmm.rs:203-232 | Takes the lowest run of free frames of that length, skipping whole words where it can, and fails exactly when there is none. |
| `FrameAllocator.Pmm.Free` | src/pmm.rs:234-254 | Returns exactly the frames of the request and moves the hint down to them, or rejects it, for exactly the stated reasons, changing nothing. |
| `FrameAllocator.Init` | src/pmm.rs:389-510 | For disjoint regions: the free frames are exactly the whole frames inside usable regions, above the first megabyte, without those of the bitmap; the count is exact and bits past the end are set. It fails exactly when no region can hold the bitmap. |
| `FrameAllocator.FindRegion` | src/pmm.rs:451-462 | The first region with room for the bitmap. |
| `FrameAllocator.OfferRegions` | src/pmm.rs:477-491 | Clearing the regions' bits leaves exactly their frames free and counts them exactly. |
| `FrameAllocator.OfferedIff` | src/pmm.rs:477-491 | The frames offered are exactly those that lie, from first byte to last, in a usable region and above the first megabyte. |
| `FrameAllocator.BitmapSize` | src/pmm.rs:389-450 | The bitmap covers memory up to the end of the highest region that is or may become usable, with one bit for each frame, in as few pages as that takes. |
| `Blocking.SemKeeps` | src/blocking.rs:106-149 | Every step of any thread keeps the semaphore's invariant: the count is never negative and equals initial plus releases minus acquires, and while a thread is parked, releasers about to wake and woken threads about to retry number at least the permits there are. |
| `Blocking.SemaphoreSafe` | src/blocking.rs:98-149 | That holds in every state of every interleaving, so no wakeup is lost and no permit is handed out twice. |
| `Blocking.LockKeeps` | src/blocking.rs:47-89 | Every step of any thread keeps the mutex's invariant. |
| `Blocking.MutexSafe` | src/blocking.rs:47-89 | In every interleaving at most one thread holds the mutex, it is marked locked exactly then, and a parked thread implies a holder or a wakeup on its way. |
| `Blocking.Semaphore.constructor` | src/blocking.rs:98-104 | A new semaphore has the count it is given and nobody waiting, and is in its invariant. |
| `Blocking.Semaphore.TakeOrPark` | src/blocking.rs:106-127 | One critical section of `acquire`: takes one permit exactly when there is one, else parks the thread at the end of the queue and leaves the count. |
| `Blocking.Semaphore.TryLoad` | src/blocking.rs:130-144 | The load of `try_acquire` returns the count and changes nothing. |
| `Blocking.Semaphore.TrySwap` | src/blocking.rs:130-144 | One compare-and-swap of `try_acquire`, which may fail spuriously: if the count is still the one loaded it takes one permit, else it returns the count to retry with; nobody parks. |
| `Blocking.Semaphore.TryAcquire` | src/blocking.rs:130-144 | With no other thread between, `try_acquire` takes one permit and reports it exactly when the count was positive, and otherwise changes nothing. |
| `Blocking.Semaphore.Release` | src/blocking.rs:146-149 | The increment of `release`: one permit more, after which a wakeup is owed. |
| `Blocking.Semaphore.WakePop` | src/scheduler.rs:608-617 | Takes the longest-waiting thread, if there is one, off the queue into the waker's hand, and the others keep their order. |
| `Blocking.Semaphore.WakeReady` | src/scheduler.rs:608-617 | Hands exactly that thread to the scheduler. |
| `Blocking.Mutex.constructor` | src/blocking.rs:37-44 | A new mutex is free and in its invariant. |
| `Blocking.Mutex.TakeOrPark` | src/blocking.rs:47-56 | One critical section of `lock`: takes the lock exactly when it is free, else parks the thread at the end of the queue. |
| `Blocking.Mutex.TryToLock` | src/blocking.rs:59-65 | Takes the lock, and reports it, exactly when it was free; it never parks and leaves the queue alone. |
| `Blocking.Mutex.Release` | src/blocking.rs:81-89 | The store of the guard's drop: the lock is free, its holder no longer holds it, and a wakeup is owed. |
| `Blocking.Mutex.WakePop` | src/scheduler.rs:608-617 | Takes the longest-waiting thread, if there is one, off the queue into the waker's hand, and the others keep their order. |
| `Blocking.Mutex.WakeReady` | src/scheduler.rs:608-617 | Hands exactly that thread to the scheduler. |
| `Blocking.Handover` | src/blocking.rs:47-89 | A waiter does get the lock: one thread locks, another parks, the first releases and wakes it, and the run ends with the other as the only holder and nobody waiting. |
| `RoundRobin.Scheduler.constructor` | src/scheduler.rs:389-419 | The state after `init` is sound: the boot thread runs, the idle thread rests. |
| `RoundRobin.Scheduler.WakeSleepers` | src/scheduler.rs:262-276 | Moves every sleeper whose deadline is at or before the time given, and no other, to the ready queue, keeping all others, through the swap-removals of the loop. |
| `RoundRobin.Scheduler.Reschedule` | src/scheduler.rs:281-364 | Wakes the sleepers whose deadline has come, parks the current thread where `how` says, runs the first ready thread or the idle thread, and reaps a thread that exited. Each thread stays in exactly one place, the slots and the page tables stay unshared, CR3 holds the page tables of the thread that runs, and the two `expect`s cannot fail. |
| `RoundRobin.Scheduler.FinishSwitch` | src/scheduler.rs:252-260 | Frees exactly the zombies, on the new thread, with the new thread's page tables loaded. |
| `RoundRobin.Scheduler.FreeThread` | src/scheduler.rs:242-248 | Frees a thread's slot and page tables; it may be called only for a thread that is neither current nor the owner of CR3, which every caller establishes. |
| `RoundRobin.NotRunning` | src/scheduler.rs:242-260 | A thread that has exited is not the one running, and CR3 does not hold its page tables. |
| `RoundRobin.Scheduler.TakeSlot` | src/scheduler.rs:180-195 | Takes the stack slot freed last, or a new one if none is free, which no thread uses, and an id that no thread has; fails exactly when all slots are taken. |
| `RoundRobin.Scheduler.ReturnSlot` | src/scheduler.rs:196-235 | A slot whose stack could not be mapped becomes free again. |
| `RoundRobin.Scheduler.Enqueue` | src/scheduler.rs:422-461 | A new thread joins the end of the ready queue, in the slot set aside for it. |
| `RoundRobin.Scheduler.WakeTake` | src/scheduler.rs:608-617 | The first waiter leaves its queue and is in the waker's hand. |
| `RoundRobin.Scheduler.WakeReady` | src/scheduler.rs:608-617 | The thread in hand becomes ready. |
| `RoundRobin.Scheduler.Tick` | src/scheduler.rs:492-511 | A switch is asked for exactly when the deadline of a sleeper is at or before now, or the slice is over and someone is ready. |
| `SchedRuns.Run` | src/scheduler.rs:281-364 | Any run, in any order of critical sections of any threads, keeps every thread in exactly one place and slots unshared, and each step has its effect: a reschedule moves the clock on, runs the head of the line and leaves the thread that ran at the end of the ready queue, asleep with its deadline, at the end of its wait queue, or gone; a spawn takes a slot unless none is left and queues its thread; a wakeup moves the first waiter to the end of the ready queue. The threads there before together with those queued since are, without overlap, the threads there now together with those that ended. |
| `SchedRuns.RoundRobinLaw` | src/scheduler.rs:281-323 | A thread at index k of the ready queue is the one that the (k+1)-th following reschedule chooses, whatever all others do. |
| `SchedRuns.SleepLaw` | src/scheduler.rs:471-476 | In every reachable state a thread that went to sleep runs or is ready only if the clock has reached its deadline. |
| `SchedRuns.Punctual` | src/scheduler.rs:262-276 | Whatever else happens, a sleeper is awake, running or ready, no later than the first reschedule at or behind its deadline. |
| `SchedRuns.UptimeMonotone` | src/pit.rs:81-87 | Uptime in milliseconds never goes back as ticks are counted. |
| `HeapBlocks.CanonUnique` | src/heap.rs:107-141 | An address-ordered list without touching blocks is determined by its set of bytes. |
| `KernelHeap.AlignUpOverflow` | src/heap.rs:40-42 | In the heap's window the 64-bit sum in `align_up` overflows exactly for alignments of 2^31 and more; a sum that wraps around still gives the right padding. |
| `KernelHeap.FreeList.constructor` | src/heap.rs:93-101 | An empty heap is in its invariant. |
| `KernelHeap.FreeList.Insert` | src/heap.rs:107-141 | Adds exactly the block's bytes to the free list, which stays linked in memory, strictly address-ordered and without touching blocks. |
| `KernelHeap.FreeList.FindAndRemove` | src/heap.rs:146-184 | Takes the first block with room, aligned, and puts back what is left but for slivers too small for a header; fails only if no block fits. |
| `KernelHeap.FreeList.Grow` | src/heap.rs:189-236 | Maps exactly as many whole pages as step, request, window and frames allow, and adds them to the free list, merging with the last block. |
| `KernelHeap.Adjusted` | src/heap.rs:246-251 | The adjusted layout has room and alignment for a header and for the request, and is the smallest that does. |
| `KernelHeap.FreeList.Alloc` | src/heap.rs:266-289 | Returns an aligned block disjoint from all live and free blocks. It grows the heap exactly when no free block fits, and fails only if none fits after that. At most two slivers are lost. |
| `KernelHeap.NoRoomIn` | src/heap.rs:266-289 | If the grown heap still has no room, less than size plus alignment was mapped. |
| `KernelHeap.FreeList.Dealloc` | src/heap.rs:291-296 | Exactly the block's bytes become free again; slivers stay lost. |
| `KernelHeap.Serve` | src/heap.rs:257-296 | One request: an allocation lends a block out of one that had room, or fails only if none has, even after growing; a free makes exactly the bytes of the block free. |
| `KernelHeap.Run` | src/heap.rs:257-296 | Over any run every request is served as stated; free, allocated and lost bytes tile the heap exactly, the counters agree with them, and live blocks stay aligned, disjoint and where they were. |
| `XhciRings.NextSlot` | src/drivers/usb/xhci.rs:209-258 | Over unboundedly many wraps, the slot the consumer looks at holds the next entry with the expected cycle bit or, if there is none, the other cycle bit. |
| `XhciRings.Ring.constructor` | src/drivers/usb/xhci.rs:209-235 | A zeroed ring with its link is in the invariant. |
| `XhciRings.Ring.Push` | src/drivers/usb/xhci.rs:242-258 | Adds exactly one entry to what the controller will consume and returns its address; the ring stays in its invariant if and only if there was room. |
| `XhciRings.Ring.Step` | src/drivers/usb/xhci.rs:242-258 | A controller that follows cycle bit and link takes the next entry exactly if there is one and it is not at the link, passes the link once it has been handed over, and otherwise stays; so it consumes exactly the pushed sequence, in order, each entry once. |
| `XhciRings.Ring.Overwrites` | src/drivers/usb/xhci.rs:242-258 | With fifteen entries outstanding, the next push overwrites the one the controller has yet to read: the source does not guard against it. |
| `XhciRings.Ring.Stalls` | src/drivers/usb/xhci.rs:242-258 | With fourteen outstanding and the controller waiting before the link, the next push gives the link a cycle bit the controller does not accept. These two are exactly the cases without room. |
| `XhciRings.RingTurn` | src/drivers/usb/xhci.rs:242-258 | One push with room, or one look of the controller, does to the ring what it does to a plain queue of at most fifteen entries. |
| `XhciRings.RunRing` | src/drivers/usb/xhci.rs:242-258 | Any interleaving of pushes, as long as there is room, and looks of the controller refines a plain queue: what the controller takes is what the queue gives, a prefix of what was pushed. |
| `XhciRings.EventRing.constructor` | src/drivers/usb/xhci.rs:205-235 | A zeroed event ring is in the invariant. |
| `XhciRings.EventRing.Produce` | src/drivers/usb/xhci.rs:897-920 | A controller that does not run past ERDP adds one event. |
| `XhciRings.EventRing.FullIff` | src/drivers/usb/xhci.rs:897-920 | Enqueue position, ERDP and the two cycle bits tell exactly when sixteen events are unread. |
| `XhciRings.EventRing.Poll` | src/drivers/usb/xhci.rs:897-920 | Returns exactly the produced events, in order, each once, and nothing exactly when there is none. |
| `UsbKeyboards.Keyboard.constructor` | src/drivers/usb/xhci.rs:1298-1300 | Posts one read for each of the eight buffers. |
| `UsbKeyboards.Keyboard.QueueReportRead` | src/drivers/usb/xhci.rs:1401-1410 | Posts a read for the next buffer in turn. |
| `UsbKeyboards.Keyboard.Complete` | src/drivers/usb/xhci.rs:1543-1565 | The controller's side: a completed read fills the buffer of its own entry and makes one event. It completes exactly when there is room for the event, a read is posted, and the link is behind it; otherwise only the link is passed. |
| `UsbKeyboards.Keyboard.Other` | src/drivers/usb/xhci.rs:1543-1550 | The controller may post any other event as long as there is room. |
| `UsbKeyboards.Keyboard.PollAndDispatch` | src/drivers/usb/xhci.rs:1543-1565 | The n-th transfer event, if it tells of success, decodes exactly the n-th report, from the buffer of its own entry, at a moment when that buffer is not posted; then the buffer is posted again. Other events change nothing. |
| `UsbKeyboards.Take` | src/drivers/usb/xhci.rs:1543-1565 | One turn of controller or driver does to rings and buffers what it does to a plain queue of unread events with a window of reads. |
| `UsbKeyboards.Run` | src/drivers/usb/xhci.rs:1543-1565 | Any interleaving of completions, other events and polls refines that queue, and the decoded reports are those of the successful transfers, in order, each once, as far as the driver has got. |
| `UsbKeyboards.GoodAll` | src/drivers/usb/xhci.rs:1543-1565 | If all transfers succeed these are a prefix of the reports. |
| `ElfHeaders.ScanExact` | src/elf.rs:211-257 | The header loop succeeds exactly when every program header is acceptable and the limits on segments and pages hold. |
| `ElfHeaders.HeadersReadBack` | src/elf.rs:175-218 | A file header and program headers written field by field, at the offsets of the ELF-64 Object File Format, are accepted and read back: the entry point and every program header. |
| `ElfHeaders.PhdrReads` | src/elf.rs:211-218 | One program header, written anywhere in the file, reads back with type, flags, offset, address, file size and memory size each in its place. |
| `ElfHeaders.SegmentBits` | src/elf.rs:250-256 | Bit 0 of the flags is execute and bit 1 is write; the other bits do not matter. |
| `ElfHeaders.HeaderErrors` | src/elf.rs:176-206 | What each error of the file header means, in bytes; of several reasons the first is reported. |
| `ElfHeaders.ExamineErrors` | src/elf.rs:220-248 | What each error of a program header means; of several reasons the first is reported. |
| `ElfHeaders.CheckOverlap` | src/elf.rs:263-273 | Finds an overlap exactly when two segments share an address. |
| `ElfHeaders.CheckEntry` | src/elf.rs:275-280 | True exactly when the entry lies in an executable segment. |
| `ElfHeaders.Parse` | src/elf.rs:175-283 | Succeeds exactly on acceptable images, whose entry and segments it returns, and otherwise reports the first thing wrong, in the order of the source. |
| `ElfLoading.Loader.Populate` | src/elf.rs:290-346 | Builds the pages of all segments with the union of their permissions and exact contents; fails for lack of frames exactly when the pages touched are more than the free frames, and else for a page both writable and executable exactly when there is one. The pages then tell exactly what was allocated. |
| `ElfLoading.Loader.FreePages` | src/elf.rs:348-352 | Gives every allocated frame back, each once. |
| `ElfLoading.Loader.Load` | src/elf.rs:356-378 | On success the process sees the image: a page of its lower half is mapped exactly when a segment has a byte in it, is open to the user, writable exactly when one of the segments in it is and executable exactly when one is, and every byte of a segment reads as its byte of the file, or zero behind the file's part; all other bytes of these pages are zero, no other space changes, and the entry page may be executed. The frames taken are those of the pages and one for each table that was missing. An error means an unacceptable image, too few frames for the pages, or a page both writable and executable, and then nothing has changed. It panics exactly when the image is fine and the free frames suffice for its pages, but not for its pages and the missing tables. |
| `ElfLoading.Shortfall` | src/elf.rs:356-378 | A process without tables needs at least three frames beyond those of its pages, so with just enough frames for its pages every acceptable image panics. |
| `ElfLoading.Loader.constructor` | src/elf.rs:356-378 | A loader works on the address spaces it is given. |
| `ProcessPages.MapAll` | src/elf.rs:365-375 | Mapping a set of pages into an empty lower half succeeds exactly when there are frames for the missing tables of all of them, takes exactly those, and maps exactly those pages in exactly that space. |
| `ElfLoading.LoadedBytes` | src/elf.rs:290-346 | Every byte of a loaded page is the image byte of the segment that backs it, and zero if none does. |
| `ElfLoading.SeenAll` | src/elf.rs:356-378 | Mapping the pages that were built makes the process see the image, in terms of its translations and of the bytes behind them. |
| `ElfLoading.TouchesIff` | src/elf.rs:298-305 | The pages from the rounded-down start of a segment to its rounded-up end are exactly those in which it has a byte. |
| `ElfLoading.EntryMapped` | src/elf.rs:275-280 | The entry point lies in a page that may be executed. |
| `ElfLoading.EntrySeen` | src/elf.rs:275-280 | The translation of the entry point is open to the user and executable. |
| `InitialStack.PutStrings` | src/process.rs:181-228 | Places the strings one below the other with their terminators, and refuses exactly when one is too long or they leave the page. |
| `InitialStack.BuildStack` | src/process.rs:181-228 | Succeeds exactly when strings and words fit in the page; then rsp is 16-byte aligned and every pointer and string is in place. |
| `InitialStack.StackRoundTrip` | src/process.rs:181-228 | Decoding from rsp as section 3.4.1 of the System V AMD64 ABI says gives back exactly argc, argv, envp and the terminating auxiliary entry if and only if no string holds a NUL byte. |
| `InitialStack.ReadStored` | src/process.rs:181-228 | A stored string reads back as itself exactly if it holds no zero byte. |
| `InitialStack.StringsApart` | src/process.rs:181-228 | No two strings of a list overlap, terminators included. |
| `InitialStack.WritesApart` | src/process.rs:181-228 | Words, environment and arguments lie one above the other inside the page and never overlap. |

## Left out

- CreateFile: takes the 8.3 alias as a parameter, eleven bytes that do not begin with a zero or the deletion mark.
- CreateDir: takes the alias likewise; it states what the finished and the failed call leave, not the sector writes in between.
- WriteAt: states the volume before and after; nothing is claimed about a power cut between its sector writes.
- MapHhdmRange: requires an offset aligned to 2 MiB, frames for the missing tables, and a window that does not cross the end of the 48-bit address space.
- Map4K: requires a free frame for each missing table, without which the source panics; so do the other operations that may need a table.
- Map: requires what the source asserts (address in the user half, unmapped, known flags) and a frame that is neither free nor in use; PageRuns.Run treats a failed assertion as the end of the run.
- Dealloc: requires that the block is on loan with the same layout, which is the contract of the allocator interface.
- TakeOrPark: takes the scheduler as up; before that `wait_until` returns at once without its condition.
- FAT32: choosing the 8.3 alias, conversion between UTF-8 and UTF-16, splitting of path strings, the limit of 255 UTF-8 bytes, `read_file` and `list`, and errors of the device.
- FAT32: names are sequences of 16-bit units, compared without ASCII case.
- Page tables: CR3 loads, TLB invalidation, PAT programming, boot-time mapping of kernel sections and the framebuffer, and `map_mmio`.
- Page tables: the tables hold records, and single words are tied to them by `PageCodes`. The walk ignores physical address bits above the mask, as the source does.
- Page tables: the branches of the teardown for large pages in a user half, which the invariant shows never to exist.
- User copies: table memory and user bytes are separate maps; `OwnedIsDistinct` shows that they never meet.
- Frames: words are sequences of 64 booleans; the dispatch of single-frame requests, logging, and reclaiming bootloader memory.
- Scheduler: register frames, stack mapping and unmapping, `wake_all`, and the bodies of threads. A sleeper's deadline is kept with it in the sleeping list.
- Heap: addresses are unbounded, so that sums for alignments of 2^31 and more do not overflow as they do in the source; which frames the allocator gives is a parameter.
- xHCI: enumeration, slots, endpoints and doorbells; one keyboard, and events of others are skipped. Reports are opaque.
- ELF: the bytes of a process's frames are kept beside the page tables, as for the user copies.
- Initial stack: mapping the stack's pages, and the frames behind them; the top page is given, zeroed.
- Everything else in the repository: device drivers, console, VFS routing, system calls, processes and signals, which would add members without harder properties.
