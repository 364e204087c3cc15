# Verification of the V7 filesystem engine, the regular-expression library and the tape tools

This project models three parts of the repository in Dafny and proves what they promise.

**The filesystem engine** (`tools/retro-fuse`). Layer by layer, each over the one before:
`rings` and `cache` (the buffer cache as two doubly linked rings over a fixed set of buffers, refining a plain
array of blocks), `freelist` (the chained free list, refining a stack), `trees`, `files` and `bmap` (address
trees with three levels of indirection, block lookup and allocation, truncation), `bytefiles` (readi and writei,
refining a sequence of bytes), `freeing` (the order in which truncation gives blocks back), `ownership` and `volume` (who owns each block; the inode table and the cached free
inodes), `directories`, `links`, `hierarchy`, `paths` and `reach` (entries, link counts, the tree of directories, path
lookup, the paths to each directory), `calls` (open, creat, close, read, write, truncate, link and unlink by path),
`openfiles` (files made, written and read back by path), `treecalls` (mkdir and rmdir,
with the paths they build and look up again), `mkfs` and `newvolume` (a new volume), `runs` (every run of calls) and
`overflow` (how a link count comes to wrap round).
Beside these, `icore` is the table of inodes in core over the cache and the i-list on disk: iget, iput, iupdat,
the search of ialloc, and update; `ondisk` ties it to the volume.

Pointers between buffers are indices. The cache's logical contents are a ghost array, `view`: what a reader of each
block would get. The routines above the cache are specified over `view` alone. Each cache routine that could wait
requires that its caller does not hold the block it asks for and that a buffer is to spare; since `sleep` does
nothing here, waiting would be hanging, so these preconditions, discharged at every call, are the proof that no
call hangs.

Two invariants stand side by side. `Links.Guarded` is kept by every call but one that gives an inode its 32768th
link: no entry names a free inode, no inode has fewer links than entries that name it, and one without links or
references is free. `Hierarchy.Sound` adds that link counts are exact and that the directories form a tree: each has
"." and one name in its parent, and ".." leads from each of them up to the root. So each is reached from the root, and
by one plain path (`Reach.PathTo`, `Reach.OnePath`). For each call it is proved exactly when that is kept.

**The regular-expression library** (`regexp.h`): `patterns` (the grammar and the meaning of patterns), `regexp` (the
byte code, `advance` and `step`), `compile` (the one-pass compiler), `writing` (expressions written out as patterns, and
what compiling and searching makes of them).

**Tape transport and recovery**: `crc` and `period` (the CRC-16 register, its table, repair of one bit, the period of
the register), `xmodem` and `tape` (the tape server and its inner protocol), `tap` (SIMH images), `dump` (dump
streams with records missing). `blocks` and `arith` hold what these share.

Where the code does less than its documentation or a natural reading says, the exact condition is proved:

- unlink keeps link counts exact if and only if it does not release a directory that still has live entries
  (`Links.UnlinkExact`, by path `Calls.UnlinkCall`). `Runs.UnlinkWitness` gets there from mkfs: mkdir "/d", then the
  superuser's unlink of "/d/." and of "/d".
- `v7fs_truncate`, and open with `O_TRUNC` but without write access, empty directories too. Exact link counts stay
  exact if and only if the inode had no live entries (`Calls.TruncateCall`, `Calls.OpenCall`), and the tree stays a tree
  if and only if it is not a directory in use (`Runs.HollowSound`). `Runs.TruncateWitness` truncates "/" of a new
  volume.
- The superuser's link or unlink of a directory breaks the tree, and every other link or unlink keeps it
  (`Runs.BoundSound`, `Runs.RemovedSound`).
- `i_nlink` has sixteen bits with a sign, and link has no limit. A link keeps entries covered by links if and only if
  the inode has fewer than 32767 (`Calls.LinkCall`); the 32768th wraps the count round, and iput releases an inode that
  32768 entries name (`Links.LinkOverruns`; from mkfs, `Overflow.OverflowWitness`). mkdir does the same to a parent with
  32767 links, and its rest undoes nothing (`TreeCalls.MkdirCall`, `TreeCalls.AfterOverrun`).
- rmdir unlinks "path/..", "path/." and "path", looking each one up again. If the path comes through the directory
  itself, as "/d/../d" does, the second look-up fails and the directory stays without its ".."; in all other cases
  rmdir of an empty directory succeeds (`TreeCalls.RmdirCall`, `Runs.RmdirWitness`).
- mkfs leaves block s_fsize-1 out of circulation exactly when the interleave n divides s_fsize-1
  (`MakeFs.InitFreeList`).
- In an i-list of 65536 inodes, the largest mkfs makes, the last one has number 0 in sixteen bits. ialloc succeeds if
  and only if some inode numbered 2..65535 is free; once it has failed, s_tinode leaves the last one out
  (`Volumes.Volume.Create`, `Volumes.Volume.TinodeIs`).
- iupdat keeps three bytes of a block address: an inode survives the trip to the disk if and only if its addresses are
  below 2^24 and its other fields in range (`InodeCore.InodeRoundTrip`).
- Past the last block that bmap can map, writei puts the bytes into the cached boot block, releases it unwritten and
  grows i_size. The cached block stays right if and only if the bytes were there already, or a whole block was written
  while it was not buffered (`ByteFiles.WritePast`); below that limit `ByteFiles.Writei` is a splice.
- A single-bit repair is not unique over a full 4096-byte payload, although the comment at
  `filesystem/tools/verify_tape_crc.py:66-67` says that it is: the first and the last bit have the same syndrome. The repair
  restores the payload unless the damaged bit is the last of 4096 bytes (`CrcPeriod.Repaired`).
- The XMODEM receive core (`serial_installer/xmodem_receive.inc`) stores a block while it computes the CRC. `serial_ct.s`
  does not set the destination back after a damaged one, `sadie_tape_serial.s` does. A session that is not broken off
  stores just the payload if and only if the driver sets it back or no damage began like the awaited block
  (`Xmodem.Session`; `Xmodem.StrayFirst` is a session where it did). The drivers give up at the eleventh bad packet in a
  row, where `serial_installer/README.md:369-370` says ten.
- A record of no bytes, or of 2^28 bytes or more, does not survive the trip through a tape image
  (`TapImages.RoundTrip`).
- Losing a data record of a dump deletes exactly its logical block if and only if no two records belong in one place
  (`DumpStream.LossExact`); one header for each inode is enough for that (`DumpStream.OneHeaderUnshared`), and
  `DumpStream.SharedPlace` is a tape without it.

## Model

| member | source | states |
|---|---|---|
| `Rings.Unlink` | tools/retro-fuse/ancient-src/v7/dev/bio.c:361-362 | taking a node out of a doubly linked ring leaves the ring of the other nodes, in order |
| `Rings.LinkFirst` | tools/retro-fuse/ancient-src/v7/dev/bio.c:198-202 | linking a node in after the head puts it first; the rest keeps its order |
| `Rings.LinkLast` | tools/retro-fuse/ancient-src/v7/dev/bio.c:204-208 | linking a node in before the head puts it last; the rest keeps its order |
| `BufferCache.Cache.constructor` | tools/retro-fuse/ancient-src/v7/sys/main.c:131-159 | all buffers are on the available list, in the order of their numbers, and stand for no block; the logical contents are the disk |
| `BufferCache.Cache.NotAvail` | tools/retro-fuse/ancient-src/v7/dev/bio.c:355-365 | the buffer leaves the available list and becomes busy; no block changes |
| `BufferCache.Cache.Brelse` | tools/retro-fuse/ancient-src/v7/dev/bio.c:182-212 | a busy buffer whose data agree with the logical contents goes to the end of the available list, or to its head if it is aged; no block changes |
| `BufferCache.Cache.BrelseUnwritten` | tools/retro-fuse/ancient-src/v7/dev/bio.c:182-212 | released after a change that was not written, the buffer leaves the cache right if and only if its data, if valid, still are the block's |
| `BufferCache.Cache.Iodone` | tools/retro-fuse/ancient-src/v7/dev/bio.c:371-384 | the buffer is done, and released if it was asynchronous |
| `BufferCache.Cache.Strategy` | tools/retro-fuse/src/v7adapt.c:222-241 | a read brings the disk block into the buffer, a write puts the buffer on disk; both complete at once |
| `BufferCache.Cache.WriteOut` | tools/retro-fuse/ancient-src/v7/dev/bio.c:125-144 | writing a delayed buffer out changes no logical contents and leaves one delayed buffer less |
| `BufferCache.Cache.Bwrite` | tools/retro-fuse/ancient-src/v7/dev/bio.c:125-144 | the buffer's data become both the logical contents and the disk contents of its block, and no other block changes |
| `BufferCache.Cache.Bdwrite` | tools/retro-fuse/ancient-src/v7/dev/bio.c:154-166 | the buffer's data become the logical contents of its block, and no other block's change, though the disk is not written; the buffer is released as by Brelse |
| `BufferCache.Cache.Bawrite` | tools/retro-fuse/ancient-src/v7/dev/bio.c:171-177 | as Bwrite, without waiting: the data become both the logical and the disk contents of the block, and the buffer is no longer delayed, goes to the end of the available list, and is aged if it was delayed |
| `BufferCache.Cache.Search` | tools/retro-fuse/ancient-src/v7/dev/bio.c:253-254 | finds the one buffer that stands for a block, or the list head if there is none |
| `BufferCache.Cache.Incore` | tools/retro-fuse/ancient-src/v7/dev/bio.c:218-229 | says whether some buffer stands for the block, and changes nothing |
| `BufferCache.Cache.GetBlk` | tools/retro-fuse/ancient-src/v7/dev/bio.c:236-299 | for a block the caller does not hold, with a buffer to spare: ends, returns the block's only buffer, which holds the block's contents if and only if a buffer did before, and changes no block's logical contents; the buffer of a block without one is the first on the available list that is not a delayed write, those before it having been written and sent to the end, and no other buffer loses its block |
| `BufferCache.Cache.GetEblk` | tools/retro-fuse/ancient-src/v7/dev/bio.c:305-334 | ends with a busy buffer that stands for no block, the first on the available list that is not a delayed write; no block's logical contents change |
| `BufferCache.Cache.Bread` | tools/retro-fuse/ancient-src/v7/dev/bio.c:59-79 | returns a buffer, chosen as by GetBlk, holding the logical contents of the block: the data last given to bwrite or bdwrite for it, else what the disk had |
| `BufferCache.Cache.Breada` | tools/retro-fuse/ancient-src/v7/dev/bio.c:85-119 | returns what Bread returns; no logical contents change and no further buffer is held; afterwards the block read ahead is in a buffer, unless the one given up for it was the first block's |
| `BufferCache.Cache.Bflush` | tools/retro-fuse/ancient-src/v7/dev/bio.c:455-471 | ends, and then the disk agrees with the logical contents of every block that is not held |
| `BufferCache.CoherentWritten` | tools/retro-fuse/ancient-src/v7/dev/bio.c:125-144 | after a buffer is written, disk, buffers and logical contents agree again with that block changed |
| `BufferCache.CoherentDelayed` | tools/retro-fuse/ancient-src/v7/dev/bio.c:154-166 | after a delayed write the buffers and the logical contents agree, while the disk may be behind |
| `BufferCache.CoherentReassigned` | tools/retro-fuse/ancient-src/v7/dev/bio.c:289-298 | giving a clean buffer to a block that had none keeps one buffer per block and all logical contents |
| `BufferCache.CoherentFilled` | tools/retro-fuse/ancient-src/v7/dev/bio.c:71-77 | a buffer filled from disk holds the logical contents, since no other buffer stands for the block |
| `BufferCache.Cache.TakeOldest` | tools/retro-fuse/ancient-src/v7/dev/bio.c:282-288 | takes the buffer at the head of the available list; if it was delayed it is written out instead and goes to the end, and one delayed buffer is gone, which is why the retry loops of getblk and geteblk end |
| `BufferCache.Passing` | tools/retro-fuse/ancient-src/v7/dev/bio.c:277-288 | each turn of the retry loop sends one more delayed write from the head of the available list to its end, or takes the first clean buffer |
| `BufferCache.DirtyStays` | tools/retro-fuse/ancient-src/v7/dev/bio.c:154-166 | a block whose disk contents are behind stays marked as delayed while other buffers change |
| `BufferCache.SomeAvailable` | tools/retro-fuse/ancient-src/v7/dev/bio.c:277-281 | while fewer than all buffers are held the available list is not empty, so the wait is never entered |
| `BufferCache.AllClean` | tools/retro-fuse/ancient-src/v7/dev/bio.c:455-471 | without delayed buffers the disk has every logical block |
| `Blocks.LinkRoundTrip` | tools/retro-fuse/ancient-src/v7/sys/alloc.c:101-104 | the count and the fifty numbers written into a link block are read back |
| `Blocks.LinkLayout` | tools/retro-fuse/ancient-src/v7/sys/alloc.c:98-109 | the bytes of a link block: the count in two, then the fifty numbers in four each, most significant first; the other bytes stay |
| `Blocks.AddrLayout` | tools/retro-fuse/ancient-src/v7/sys/subr.c:97-108 | an entry of an index block is four bytes, most significant first, at four times its index; no other byte changes |
| `FreeList.Super.Alloc` | tools/retro-fuse/ancient-src/v7/sys/alloc.c:27-75 | pops the stack: returns its top block, cleared and held; fails exactly when the stack is empty; the count of free blocks stays exact |
| `FreeList.Super.Pop` | tools/retro-fuse/ancient-src/v7/sys/alloc.c:37-62 | finds the top of the stack, refilling the table from the link block when it takes the last entry |
| `FreeList.Super.Free` | tools/retro-fuse/ancient-src/v7/sys/alloc.c:82-114 | pushes a block in range; changes no block but that one (it may become a link block); ignores a bad block |
| `FreeList.Super.Spill` | tools/retro-fuse/ancient-src/v7/sys/alloc.c:98-109 | a full table goes into the block being freed |
| `FreeList.Super.CountFree` | tools/retro-fuse/src/v7fs.c:1257-1290 | the walk of statfs takes none of its error exits and counts exactly the stack, which is also s_tfree |
| `FreeList.ChainFrame` | tools/retro-fuse/ancient-src/v7/sys/alloc.c:27-114 | the chain depends only on blocks that are on it |
| `FreeList.ChainPop` | tools/retro-fuse/ancient-src/v7/sys/alloc.c:44-45 | taking the top entry of the table pops the stack |
| `FreeList.ChainRefill` | tools/retro-fuse/ancient-src/v7/sys/alloc.c:49-57 | taking the last entry and reading the table from its block pops the stack |
| `FreeList.ChainPush` | tools/retro-fuse/ancient-src/v7/sys/alloc.c:110-111 | adding an entry to the table pushes on the stack |
| `FreeList.ChainSpill` | tools/retro-fuse/ancient-src/v7/sys/alloc.c:98-111 | spilling the table into the freed block pushes on the stack |
| `Files.PathBijection` | tools/retro-fuse/ancient-src/v7/sys/subr.c:28-73 | the level and index arithmetic takes logical blocks 0..10+128+128^2+128^3-1 one to one to address slots and offsets, and different blocks have different index paths |
| `Files.PathOnto` | tools/retro-fuse/ancient-src/v7/sys/subr.c:28-73 | every address slot with every choice of 7-bit indices below it is the path of some logical block |
| `Files.LookupIs` | tools/retro-fuse/ancient-src/v7/sys/subr.c:35-120 | logical blocks 0-9 are the inode's first ten addresses; the next 128 the entries of the index block at address 10; the next 128^2 below address 11 and the rest below address 12, in order, with the index at each level |
| `FreeingOrder.FileOrder` | tools/retro-fuse/ancient-src/v7/sys/iget.c:192-238 | itrunc frees the data blocks from the last to the first, so that the file's first block is nearest to the top of the free stack |
| `FreeingOrder.TreeOrder` | tools/retro-fuse/ancient-src/v7/sys/iget.c:248-271 | tloop frees the data blocks below an index block from the last to the first |
| `FreeingOrder.IndexLast` | tools/retro-fuse/ancient-src/v7/sys/iget.c:268-270 | an index block is freed after everything below it |
| `Files.LookupInjective` | tools/retro-fuse/ancient-src/v7/sys/subr.c:75-119 | different logical blocks of a file have different physical blocks |
| `Files.LookupInTree` | tools/retro-fuse/ancient-src/v7/sys/subr.c:75-119 | a mapped block is one of the blocks of the file's tree, and is not one of its index blocks |
| `Files.FileFrame` | tools/retro-fuse/ancient-src/v7/sys/subr.c:88-112 | a file's mapping depends only on its index blocks |
| `Files.GrowRoot` | tools/retro-fuse/ancient-src/v7/sys/subr.c:79-86 | putting a cleared block in the inode adds that block to the file and changes no other mapping |
| `Files.GrowInner` | tools/retro-fuse/ancient-src/v7/sys/subr.c:101-109 | putting a cleared block in an index block adds that block to the file and changes no other mapping |
| `BlockMap.FetchRoot` | tools/retro-fuse/ancient-src/v7/sys/subr.c:75-86 | the address in the inode, allocated if need be; failing, nothing changes |
| `BlockMap.Descend` | tools/retro-fuse/ancient-src/v7/sys/subr.c:91-112 | one level down, allocating if need be; two spare buffers are enough, so with the superblock's own at most three are busy |
| `BlockMap.Bmap` | tools/retro-fuse/ancient-src/v7/sys/subr.c:19-120 | returns the block that the inode's own address bn has, or the entry of the one, two or three index blocks on the way for the indirect ranges, and -1 for a hole read; a write lookup fills holes from the free stack and a read lookup then finds the same; no other logical block's mapping changes, out of space included; a read lookup changes nothing; the block to read ahead is the next logical block's, unless that hangs elsewhere |
| `BlockMap.NextEntry` | tools/retro-fuse/ancient-src/v7/sys/subr.c:114-118 | the next entry of the last index block on the way is the next logical block's |
| `BlockMap.Tloop` | tools/retro-fuse/ancient-src/v7/sys/iget.c:240-271 | appends the whole tree below an index block to the free stack, each block once, though freed blocks may be overwritten on the way |
| `BlockMap.Itrunc` | tools/retro-fuse/ancient-src/v7/sys/iget.c:201-238 | appends every data and index block of a file of any shape to the free stack, each once, and changes no block outside the file |
| `BlockMap.ReapEntry` | tools/retro-fuse/ancient-src/v7/sys/iget.c:258-266 | freeing one entry's subtree leaves the index block and the subtrees still to be freed intact |
| `BlockMap.TruncEntry` | tools/retro-fuse/ancient-src/v7/sys/iget.c:213-235 | freeing one address leaves the other addresses' trees intact |
| `BlockMap.ReapAddress` | tools/retro-fuse/ancient-src/v7/sys/iget.c:213-235 | one address of the inode: its block or tree goes to the free stack, and nothing outside it changes |
| `Trees.WalkInjective` | tools/retro-fuse/ancient-src/v7/sys/subr.c:91-112 | in a tree that holds each block once, different paths end in different blocks |
| `Trees.WalkIs` | tools/retro-fuse/ancient-src/v7/sys/subr.c:91-112 | the block at an offset is found through one, two or three index blocks at the entries off / 128^2, off / 128 mod 128 and off mod 128 |
| `Trees.Graft` | tools/retro-fuse/ancient-src/v7/sys/subr.c:101-109 | adding a cleared block below an index block adds it to the tree and keeps every other path |
| `ByteFiles.Writei` | tools/retro-fuse/ancient-src/v7/sys/rdwri.c:85-132 | the file becomes the old one with the written bytes spliced in and zeros in any gap; a short count only when the volume is full; bytes past the end stay zero; only this file and the free stack change |
| `ByteFiles.WriteChunk` | tools/retro-fuse/ancient-src/v7/sys/rdwri.c:108-126 | one block's share of a write: exactly its bytes change; it fails only when the volume is full |
| `ByteFiles.WritePast` | tools/retro-fuse/ancient-src/v7/sys/rdwri.c:108-131 | a write past the last mappable block: no byte of the file, no address and no free block changes, the size grows all the same, and the bytes land in the cached block 0, which stays right if and only if they were there already, or a whole block was written and no buffer had block 0 before the call |
| `ByteFiles.Readi` | tools/retro-fuse/ancient-src/v7/sys/rdwri.c:21-73 | returns the bytes of the file in the window asked for: the last written ones, zeros in holes; nothing changes |
| `ByteFiles.ReadChunk` | tools/retro-fuse/ancient-src/v7/sys/rdwri.c:45-71 | one block's share of a read, holes as zeros |
| `ByteFiles.FsRead` | tools/retro-fuse/src/v7fs.c:520-554 | reading 65535 bytes at a time returns the same as one read |
| `ByteFiles.FsWrite` | tools/retro-fuse/src/v7fs.c:571-608 | writing 65535 bytes at a time splices the same as one write; running out of space is reported, with the bytes done in the file |
| `ByteFiles.WriteIsSplice` | tools/retro-fuse/ancient-src/v7/sys/rdwri.c:108-131 | block-wise writes and the grown size amount to a splice of the byte sequence |
| `ByteFiles.SpliceChunks` | tools/retro-fuse/src/v7fs.c:577-605 | two adjoining splices are one |
| `ByteFiles.SpliceByte` | tools/retro-fuse/ancient-src/v7/sys/rdwri.c:85-132 | each byte of a splice: the written one in range, the old one or zero elsewhere |
| `ByteFiles.WindowChunks` | tools/retro-fuse/src/v7fs.c:526-551 | two adjoining windows are one |
| `ByteFiles.WindowByte` | tools/retro-fuse/ancient-src/v7/sys/rdwri.c:44-72 | a read returns the bytes from the offset on, as many as asked for or as there are |
| `ByteFiles.ContentsByte` | tools/retro-fuse/ancient-src/v7/sys/rdwri.c:45-68 | byte o of a file is byte o mod 512 of logical block o / 512, or zero in a hole; of the first ten blocks, of the block the inode's address names |
| `Ownership.EachBlockOnce` | tools/retro-fuse/ancient-src/v7/sys/alloc.c:27-114 | what balanced books mean: a block in circulation is on the free stack once, or once in exactly one file's tree, never both |
| `Ownership.SameFile` | tools/retro-fuse/ancient-src/v7/sys/subr.c:88-112 | a file whose blocks are as they were is as it was |
| `Ownership.OtherFile` | tools/retro-fuse/ancient-src/v7/sys/rdwri.c:85-132 | a change confined to one file's blocks and free blocks leaves every other file's bytes and mapping alone |
| `Ownership.Rebalanced` | tools/retro-fuse/ancient-src/v7/sys/iget.c:201-271 | blocks that move between the free stack and one file keep the books balanced |
| `Volumes.Volume.constructor` | tools/retro-fuse/src/v7fs.c:273-314 | a volume whose inodes have no blocks has all its blocks on the free stack |
| `Volumes.Volume.Write` | tools/retro-fuse/ancient-src/v7/sys/rdwri.c:85-132 | writei on one inode: its bytes are spliced, every other inode's bytes, links and references stay, the books stay balanced |
| `Volumes.Volume.Read` | tools/retro-fuse/ancient-src/v7/sys/rdwri.c:21-73 | readi on one inode returns its bytes and changes no file |
| `Volumes.Volume.Truncate` | tools/retro-fuse/ancient-src/v7/sys/iget.c:201-238 | itrunc on one inode empties it and changes no other |
| `Volumes.Volume.Iget` | tools/retro-fuse/ancient-src/v7/sys/iget.c:58-60 | one more reference and nothing else |
| `Volumes.Volume.Iput` | tools/retro-fuse/ancient-src/v7/sys/iget.c:120-139 | the last reference to an inode without links frees its blocks and the inode; otherwise only the reference goes |
| `Volumes.Volume.Ifree` | tools/retro-fuse/ancient-src/v7/sys/alloc.c:229-243 | counts the inode and remembers it while there is room |
| `Volumes.Volume.Scan` | tools/retro-fuse/ancient-src/v7/sys/alloc.c:184-213 | collects the free inodes with the lowest numbers, in order, a hundred of them or all; none only if no inode with a number is free: inode 65536, whose number is 0 in sixteen bits, is passed over |
| `Volumes.Volume.Ialloc` | tools/retro-fuse/ancient-src/v7/sys/alloc.c:147-220 | returns the last inode in the superblock's table, or, if that is empty, the last one a search of the i-list put there; it is really free, not the bad block file, and no longer remembered; reports none only if no inode numbered 2..65535 is free |
| `Volumes.Volume.Create` | tools/retro-fuse/ancient-src/v7/sys/alloc.c:147-220 | succeeds if and only if some inode numbered 2..65535 is free; the new inode is the last in the table, refilled by a search if it was empty; it has one link, one reference and no bytes and s_tinode is one less; on failure nothing changes but s_tinode, which is 0 |
| `Volumes.Volume.TinodeIs` | tools/retro-fuse/ancient-src/v7/sys/alloc.c:214-219 | s_tinode is the number of free inodes, or, in an i-list of 65536, that number less the one inode without a number |
| `Volumes.CountedFreed` | tools/retro-fuse/ancient-src/v7/sys/alloc.c:229-243 | after ifree the remembered inodes are distinct and free and s_tinode is right, also when the table was full |
| `Volumes.CountedTaken` | tools/retro-fuse/ancient-src/v7/sys/alloc.c:162-176 | after ialloc the remembered inodes are distinct and free and s_tinode is right |
| `Volumes.CountedNone` | tools/retro-fuse/ancient-src/v7/sys/alloc.c:214-219 | when ialloc gives up, clearing s_tinode is right, except that in an i-list of 65536 inodes one is free and not counted |
| `InodeCore.InodeRoundTrip` | tools/retro-fuse/ancient-src/v7/sys/iget.c:92-190 | an inode that iupdat writes is the one iexpand reads back if and only if its fields are in range: in particular its block addresses below 2^24 |
| `InodeCore.AddrBytesAt` | tools/retro-fuse/ancient-src/v7/sys/iget.c:171-180 | each of the thirteen addresses has its own three bytes, most significant first |
| `InodeCore.PackedLayout` | tools/retro-fuse/ancient-src/v7/sys/iget.c:166-180 | the bytes of a disk inode: mode, links, owner and group in two each, the size in four, then thirteen addresses in three, most significant first |
| `InodeCore.ExpandedFields` | tools/retro-fuse/ancient-src/v7/sys/iget.c:92-111 | the fields of an inode from its bytes, in those places |
| `InodeCore.StampedLayout` | tools/retro-fuse/ancient-src/v7/sys/iget.c:181-186 | iupdat writes the times of access, modification and change exactly where the mark is set, and keeps the others |
| `InodeCore.PlaceIn` | tools/retro-fuse/ancient-src/v7/h/param.h:108-111 | inode 1 is the first of block 2, with eight inodes to a block |
| `InodeCore.PutDinodeAt` | tools/retro-fuse/ancient-src/v7/sys/iget.c:164-186 | writing one of the eight inodes of a block leaves the other seven as they were |
| `InodeCore.ListPut` | tools/retro-fuse/ancient-src/v7/h/param.h:108-111 | the i-list after iupdat has the new value at that inode number and the old one at every other |
| `InodeCore.SlotChanged` | tools/retro-fuse/ancient-src/v7/sys/iget.c:71-88 | what a place of the table says of its inode is that inode's value, and no other inode's value moves |
| `InodeCore.Updated` | tools/retro-fuse/ancient-src/v7/sys/iget.c:147-190 | iupdat changes no inode's value; afterwards the list has the inode as the table does |
| `InodeCore.Table.constructor` | tools/retro-fuse/src/v7fs.c:108-112 | with nothing in core every inode has the value on the list |
| `InodeCore.Table.Find` | tools/retro-fuse/ancient-src/v7/sys/iget.c:41-64 | the place of the inode in the table, or else the first unused one, or neither |
| `InodeCore.Table.Iget` | tools/retro-fuse/ancient-src/v7/sys/iget.c:31-90 | a reference to the inode, with its value; fails if and only if it is not in core and no place is unused; no inode's value changes; cannot hang, since no buffer of the i-list is held |
| `InodeCore.Table.Load` | tools/retro-fuse/ancient-src/v7/sys/iget.c:71-89 | the inode is read through the cache into an unused place |
| `InodeCore.Table.Modify` | tools/retro-fuse/ancient-src/v7/sys/iget.c:276-292 | a holder's change is that inode's value from then on, and no other inode's |
| `InodeCore.Table.Iupdat` | tools/retro-fuse/ancient-src/v7/sys/iget.c:147-190 | a marked inode is written to its place on the list, no other block and no inode's value changes, and the marks are gone |
| `InodeCore.Table.Iput` | tools/retro-fuse/ancient-src/v7/sys/iget.c:120-139 | one reference less; the last one leaves the inode written and out of core, and without its mode, bytes and addresses exactly if it had no links; every other inode keeps its value |
| `InodeCore.Table.ScanBlock` | tools/retro-fuse/ancient-src/v7/sys/alloc.c:193-207 | the candidates of one block of the list, in order |
| `InodeCore.Table.Scan` | tools/retro-fuse/ancient-src/v7/sys/alloc.c:184-213 | reading each block through the cache: the first hundred candidates of the list, or all of them |
| `InodeCore.CandidatesFree` | tools/retro-fuse/ancient-src/v7/sys/alloc.c:194-207 | an inode is a candidate if and only if it is free on the list and not in core; so it really is free |
| `InodeCore.CandidatesInOrder` | tools/retro-fuse/ancient-src/v7/sys/alloc.c:193-210 | candidates are listed in the order of their numbers; the 0 of inode 65536 comes last |
| `InodeCore.StaleList` | tools/retro-fuse/ancient-src/v7/sys/alloc.c:197-199 | an inode that is free on the list but in use is in core: what the look into the table is for |
| `InodeCore.ZeroListed` | tools/retro-fuse/ancient-src/v7/sys/alloc.c:194-207 | number 0 is listed only for a free inode 65536 while no place of the table is unused |
| `InodeCore.Table.Sync` | tools/retro-fuse/ancient-src/v7/sys/alloc.c:317-325 | after update the disk alone gives every inode the value it had |
| `OnDisk.ListApart` | tools/retro-fuse/ancient-src/v7/sys/alloc.c:317-325 | files and books do not depend on the blocks of the i-list |
| `OnDisk.MirrorsKept` | tools/retro-fuse/ancient-src/v7/sys/iget.c:147-190 | a change of one inode of the volume, made in its place of the table, keeps table and list a mirror of the volume's inodes |
| `OnDisk.Sync` | tools/retro-fuse/ancient-src/v7/sys/alloc.c:292-326 | while table and list mirror the volume's inodes, update keeps every file and leaves a disk that by itself gives every file: its mode, its links and its bytes |
| `Directories.DentWritten` | tools/retro-fuse/ancient-src/v7/sys/iget.c:317-322 | writing an entry sets that slot or appends one, and changes no other |
| `Directories.DentLayout` | tools/retro-fuse/ancient-src/v7/sys/iget.c:317-322 | an entry is the inode number in two bytes, high byte first, and the fourteen bytes of the name |
| `Directories.SlotLayout` | tools/retro-fuse/ancient-src/v7/sys/nami.c:154-157 | slot k of a directory is read from its bytes from 16 k on |
| `Directories.MapIsFind` | tools/retro-fuse/ancient-src/v7/sys/nami.c:157-164 | the directory as a map knows a name exactly when the search finds it, with that inode number |
| `Directories.MapAdd` | tools/retro-fuse/ancient-src/v7/sys/iget.c:309-325 | entering an absent name adds exactly that binding and keeps names unique |
| `Directories.MapRemove` | tools/retro-fuse/ancient-src/v7/sys/sys4.c:204-208 | clearing a live entry removes exactly its binding |
| `Links.ReadEntry` | tools/retro-fuse/ancient-src/v7/sys/nami.c:154-156 | the entry at a slot, or the end of the directory |
| `Links.Search` | tools/retro-fuse/ancient-src/v7/sys/nami.c:96-164 | finds the entry the map has for the name, and the first empty slot or the end when there is none |
| `Links.WriteEntry` | tools/retro-fuse/ancient-src/v7/sys/iget.c:317-322 | an entry goes in whole or, when the volume is full, not at all |
| `Links.Wdir` | tools/retro-fuse/ancient-src/v7/sys/iget.c:309-325 | the entry goes in at the slot namei left, unless the directory has been removed or the volume is full, and the reference to the directory goes |
| `Links.SetEntry` | tools/retro-fuse/ancient-src/v7/sys/sys4.c:204-210 | the entry and the link count change together or not at all |
| `Links.Linking` | tools/retro-fuse/ancient-src/v7/sys/sys2.c:259-263 | a new entry with one more link, for an inode that has fewer than 32767, adds one binding, keeps every inode covered by its links, and keeps counts exact if and only if they were |
| `Links.LinkOverruns` | tools/retro-fuse/ancient-src/v7/sys/sys2.c:259-266 | the link to an inode that has 32767 wraps its count to -32768: iput then releases it unless it is open, and in either case an entry names an inode that is free or has no links |
| `Links.Unlinking` | tools/retro-fuse/ancient-src/v7/sys/sys4.c:204-210 | a cleared entry with one link less removes one binding and keeps counts exact if and only if they were |
| `Links.Clearing` | tools/retro-fuse/ancient-src/v7/sys/iget.c:201-238 | emptying an inode, by releasing or by truncating it, keeps every entry covered, and keeps exact counts exact if and only if it held no live entries |
| `Links.Link` | tools/retro-fuse/ancient-src/v7/sys/sys2.c:221-267 | the name is bound to the inode with one more link in sixteen bits, or nothing changes (directory removed, volume full); no entry names a free inode and no inode has fewer links than entries afterwards, unless the count wrapped round |
| `Links.UnlinkNet` | tools/retro-fuse/ancient-src/v7/sys/sys4.c:176-215 | the references unlink takes come and go, and only the last one out can release the inode |
| `Links.Unlink` | tools/retro-fuse/ancient-src/v7/sys/sys4.c:167-216 | the entry is cleared and the inode released if that was its last link and it is not open; exact counts stay exact if and only if no directory with live entries was released |
| `Links.UnlinkExact` | tools/retro-fuse/ancient-src/v7/sys/sys4.c:167-216 | unlink never leaves an entry for a free inode or fewer links than entries; it keeps counts exact if and only if it does not release a directory that still has live entries |
| `Links.NewInode` | tools/retro-fuse/ancient-src/v7/sys/iget.c:281-292 | a free inode is named nowhere |
| `Links.MadeGuarded` | tools/retro-fuse/ancient-src/v7/sys/iget.c:276-302 | a new inode and its entry add one binding and keep counts exact if and only if they were |
| `Links.Maknode` | tools/retro-fuse/ancient-src/v7/sys/iget.c:276-302 | a new inode under a new name, which the caller holds, or nothing but a cleared free inode; it fails only if the directory is removed, no inode is free or fewer than five blocks are |
| `Hierarchy.LinksMeanNames` | tools/retro-fuse/ancient-src/v7/sys/sys4.c:209-209 | with exact counts an inode has links if and only if some name leads to it |
| `Hierarchy.LookIsFind` | tools/retro-fuse/ancient-src/v7/sys/nami.c:157-164 | what a directory's map gives for a name is what the search finds |
| `Hierarchy.Unlinkable` | tools/retro-fuse/ancient-src/v7/sys/sys4.c:167-216 | unlink that strands no entries: one binding less, all other inodes as they were, counts exact |
| `Hierarchy.LinkedLooks` | tools/retro-fuse/ancient-src/v7/sys/sys2.c:221-267 | link adds one binding and one link, and changes no other name or inode |
| `Hierarchy.MadeLooks` | tools/retro-fuse/ancient-src/v7/sys/iget.c:276-302 | maknode adds one binding and one inode, and changes no other |
| `Hierarchy.RootedBind` | tools/retro-fuse/ancient-src/v7/sys/sys2.c:221-267 | naming a file keeps the directories a tree |
| `Hierarchy.RootedForget` | tools/retro-fuse/ancient-src/v7/sys/sys4.c:167-216 | removing a file's name keeps the directories a tree |
| `Hierarchy.RootedSprout` | tools/retro-fuse/src/v7fs.c:967-1063 | a new directory with its name, "." and ".." keeps the directories a tree |
| `Hierarchy.RootedPrune` | tools/retro-fuse/src/v7fs.c:1066-1123 | removing an empty directory with its three names keeps the directories a tree |
| `Hierarchy.StillClimbs` | tools/retro-fuse/src/v7fs.c:967-1123 | directories whose .. stays, in a tree where nobody climbs through the one that goes, still lead up to the root |
| `Hierarchy.GrewSound` | tools/retro-fuse/src/v7fs.c:967-1063 | a finished mkdir leaves exact counts and a tree, with the new directory in it |
| `Hierarchy.EmptyEntries` | tools/retro-fuse/src/v7fs.c:1445-1450 | no entry that the enumeration objects to means no name besides "." and ".." |
| `Hierarchy.OnlyNames` | tools/retro-fuse/src/v7fs.c:1105-1117 | an empty directory is named by its entry in its parent and by its "." only |
| `Hierarchy.PruneDone` | tools/retro-fuse/src/v7fs.c:1105-1117 | with its three names gone the directory is out of the tree, and its inode free unless it is open |
| `Paths.Namei` | tools/retro-fuse/ancient-src/v7/sys/nami.c:23-201 | for every path and all three modes, the result, the slot and the reference left with the caller are those the directories' maps give, component by component; no file changes |
| `Paths.Enter` | tools/retro-fuse/ancient-src/v7/sys/nami.c:84-196 | one component: the inode its name is bound to, if any; the directory's reference passes to it, or stays for the last name of a create or delete |
| `Paths.Turn` | tools/retro-fuse/ancient-src/v7/sys/nami.c:59-196 | one turn of the loop: the answer the maps give, or one component less to go from the inode found, with the reference passed on |
| `Paths.Gather` | tools/retro-fuse/ancient-src/v7/sys/nami.c:65-76 | the component zero-padded to fourteen bytes, or its first fourteen bytes if it is longer, and the rest of the path after the slashes |
| `Paths.LongNames` | tools/retro-fuse/ancient-src/v7/sys/nami.c:66-74 | two components of fourteen bytes or more are the same name if and only if their first fourteen bytes agree |
| `Paths.ComponentsJoin` | tools/retro-fuse/ancient-src/v7/sys/nami.c:65-76 | a path split at a slash has the components of its parts |
| `Paths.ResolvedJoin` | tools/retro-fuse/ancient-src/v7/sys/nami.c:48-58 | a path goes on from where its first part leads |
| `Reach.LastLeg` | tools/retro-fuse/ancient-src/v7/sys/nami.c:48-196 | in a tree, a plain path to a directory ends with its one name in its parent |
| `Reach.PathTo` | tools/retro-fuse/ancient-src/v7/sys/nami.c:23-201 | in a tree, every directory in use is where some path from the root leads, one of plain names |
| `Reach.OnePath` | tools/retro-fuse/ancient-src/v7/sys/nami.c:23-201 | and no two plain paths with different names lead to one directory |
| `Reach.SpellBack` | tools/retro-fuse/ancient-src/v7/sys/nami.c:65-76 | names put together with slashes come apart again as the same names |
| `Calls.LinkCall` | tools/retro-fuse/src/v7fs.c:454-470 | the inode the first path leads to gets the missing last name of the second and one link more, a directory for the superuser only; otherwise nothing changes; with room it succeeds; no entry for a free inode and no fewer links than entries afterwards if and only if the inode had fewer than 32767 links or nothing was done |
| `Calls.UnlinkCall` | tools/retro-fuse/src/v7fs.c:676-684 | succeeds if and only if the last name exists and is not a directory's, or the caller is the superuser; exactly that binding goes, and the inode too on its last link unless open; exact counts stay exact if and only if no directory with live entries is stranded |
| `Calls.HollowUp` | tools/retro-fuse/ancient-src/v7/sys/iget.c:201-238 | truncating any inode keeps every entry covered, and keeps exact counts exact if and only if it held no live entries |
| `Calls.TruncateCall` | tools/retro-fuse/src/v7fs.c:628-648 | empties whatever inode the path leads to, directories included; exact counts stay exact if and only if that inode held no live entries |
| `Calls.Open1` | tools/retro-fuse/ancient-src/v7/sys/sys2.c:134-167 | a directory is not opened for writing; otherwise no bytes left if truncation is asked for, directories included, and one reference more, or none if no descriptor is free |
| `Calls.OpenCall` | tools/retro-fuse/src/v7fs.c:331-381 | open1 of the inode the path leads to, a full descriptor table included; exact counts stay exact if and only if no live entries are truncated away |
| `Calls.MakeIn` | tools/retro-fuse/ancient-src/v7/sys/iget.c:276-302 | maknode in the directory namei left: a new file there, held, or names, links and inodes in use as before; with room and a free inode it succeeds |
| `Calls.CreatCall` | tools/retro-fuse/src/v7fs.c:331-381 | an existing inode is opened, or refused for O_EXCL or as a directory to be written; a missing last name is created, without the sticky bit, unless there is no room or no free inode; with no descriptor free the file is made all the same and closed |
| `Calls.CloseCall` | tools/retro-fuse/ancient-src/v7/sys/sys2.c:173-186 | one reference less; the last one to an inode without links releases it; exact counts stay exact if and only if no live entries go with it |
| `Calls.WriteCall` | tools/retro-fuse/ancient-src/v7/sys/sys2.c:37-81 | the bytes, or as many as there was room for, are in the open file, and nothing else changes |
| `Calls.ReadCall` | tools/retro-fuse/ancient-src/v7/sys/sys2.c:37-81 | the bytes of the open file or directory in the window, and nothing changes |
| `OpenFiles.Save` | tools/retro-fuse/src/v7fs.c:331-381 | creat with truncation, then write, then read: what is read is what was written, all of it unless the volume filled up, and the path leads to the file; creat succeeds on a missing name with room and a free inode, and on any file |
| `OpenFiles.CreatedLeads` | tools/retro-fuse/ancient-src/v7/sys/iget.c:276-302 | the path of a file that creat made leads to it, and it is empty with one link and one reference |
| `TreeCalls.DotComponents` | tools/retro-fuse/src/v7fs.c:1017-1024 | "path/." and "path/.." have the components of the path and one more |
| `TreeCalls.DirnameComponents` | tools/retro-fuse/src/v7fs.c:981-982 | dirname has all components of the path but the last, or is "." for a bare name |
| `TreeCalls.ReachedPaths` | tools/retro-fuse/src/v7fs.c:1105-1117 | where a path leads to a directory, "path/." and "path/.." name exactly that directory's "." and ".." entries, for look-up, creation and deletion |
| `TreeCalls.DirnameLeads` | tools/retro-fuse/src/v7fs.c:981-1027 | in a tree, dirname leads to the directory that has the last name |
| `TreeCalls.BuddingReached` | tools/retro-fuse/src/v7fs.c:1012-1057 | in every intermediate state of mkdir its path leads to the new directory |
| `TreeCalls.DotLink` | tools/retro-fuse/src/v7fs.c:1016-1021 | link of the path to "path/." enters "." in the new directory |
| `TreeCalls.DotsLink` | tools/retro-fuse/src/v7fs.c:1023-1027 | link of dirname to "path/.." goes to the parent, and enters it as ".." in the new directory if it has fewer than 32767 links |
| `TreeCalls.MakeDots` | tools/retro-fuse/src/v7fs.c:1016-1044 | both links are made, or only "." or none, and then fewer than nine blocks were free; or the link of ".." wrapped the parent's count round, which had 32767 |
| `TreeCalls.BrimfulBefore` | tools/retro-fuse/src/v7fs.c:1023-1027 | an inode that mkdir would give one link too many had as many as it can count before the call |
| `TreeCalls.AfterOverrun` | tools/retro-fuse/src/v7fs.c:1029-1057 | once the parent's count has wrapped round, the rest of mkdir undoes nothing: an open parent leaves the call to succeed, and through a released one neither the directory nor its "." and ".." can be found to be unlinked |
| `TreeCalls.Unmake` | tools/retro-fuse/src/v7fs.c:1047-1057 | the three unlinks by path restore names, links and inodes in use |
| `TreeCalls.MkdirCall` | tools/retro-fuse/src/v7fs.c:967-1063 | in a tree: either the directory exists with its three names and the parent has one link more, or names, links and inodes in use are as before, whichever step ran out of space, or the parent had 32767 links and its count has wrapped round; with room for three entries and a free inode it succeeds or ends in the last |
| `TreeCalls.Enumerate` | tools/retro-fuse/src/v7fs.c:1127-1190 | the enumeration with the non-empty check says whether every entry is "." or ".." |
| `TreeCalls.TargetIs` | tools/retro-fuse/src/v7fs.c:1076-1100 | the tests of rmdir accept exactly an empty directory other than the root, by an ordinary last name |
| `TreeCalls.ResolvedAround` | tools/retro-fuse/ancient-src/v7/sys/nami.c:48-196 | a path that does not come through a directory does not depend on its names |
| `TreeCalls.Stuck` | tools/retro-fuse/ancient-src/v7/sys/nami.c:48-196 | a path that comes through an empty directory to end elsewhere leads nowhere without its ".." |
| `TreeCalls.RmdirFirst` | tools/retro-fuse/src/v7fs.c:1105-1108 | the ".." goes without harm |
| `TreeCalls.RmdirRest` | tools/retro-fuse/src/v7fs.c:1111-1117 | by a path that does not come through the directory, "." and the name go too, and the tree is left without it |
| `TreeCalls.RmdirStuck` | tools/retro-fuse/src/v7fs.c:1111-1115 | by a path through the directory itself the unlink of "." finds nothing, and the directory is left without its ".." |
| `TreeCalls.RmdirCall` | tools/retro-fuse/src/v7fs.c:1066-1123 | in a tree: refuses anything but an empty directory by an ordinary name, and anything without a free descriptor; removes the directory with its three names if and only if the path does not come through it; otherwise fails with its ".." gone |
| `MakeFs.Interleave` | tools/retro-fuse/src/v7fs.c:1363-1372 | ends, for every n >= 1 and m, with a permutation of 1..n that begins with 1, in which each number is the first one not yet given from m further on, going round |
| `MakeFs.InitFreeList` | tools/retro-fuse/src/v7fs.c:1356-1383 | frees each block of [s_isize, s_fsize) exactly once, except block s_fsize-1 when n divides s_fsize-1, which it leaves out; the free stack is the passes from the top of the volume down, each in the order of the interleaved numbers |
| `MakeFs.FreePass` | tools/retro-fuse/src/v7fs.c:1378-1382 | one pass frees the n blocks below d that are in range, in the order of the interleaved numbers |
| `NewVolumes.Mkfs` | tools/retro-fuse/src/v7fs.c:172-327 | fails if and only if a size is out of range, an i-list of 8192 blocks being in range; otherwise the volume is in order, its blocks in circulation are those InitFreeList freed, in that order for the interleave asked for or 500 and 3, the i-list is as long as asked for or a twenty-fifth of the volume, and the root names itself |
| `NewVolumes.FreshSound` | tools/retro-fuse/src/v7fs.c:257-311 | the new volume's links and directories are in order |
| `Runs.Mount` | tools/retro-fuse/src/v7fs.c:140-147 | the two references to the root keep the volume in order |
| `Runs.HollowSound` | tools/retro-fuse/src/v7fs.c:628-648 | truncation keeps exact counts and the tree if and only if it is not of a directory in use |
| `Runs.OpenedSound` | tools/retro-fuse/src/v7fs.c:331-381 | open keeps exact counts and the tree if and only if it does not truncate a directory in use |
| `Runs.BoundSound` | tools/retro-fuse/ancient-src/v7/sys/sys2.c:221-267 | a new name that can be counted keeps exact counts and the tree if and only if it is not a directory's |
| `Runs.RemovedSound` | tools/retro-fuse/ancient-src/v7/sys/sys4.c:167-216 | removing a name keeps exact counts and the tree if and only if it is not a directory's |
| `Runs.DroppedSound` | tools/retro-fuse/ancient-src/v7/sys/sys2.c:173-186 | close keeps exact counts and the tree |
| `Runs.Step` | tools/retro-fuse/src/v7fs.c:331-1123 | every call, failing ones and the superuser's included, keeps the books balanced and inode counts right, and makes of the files what that call should; no entry for a free inode and no fewer links than entries, unless it was a link or mkdir that gave an inode its 32768th link; exact counts and the tree are kept if and only if the call is none of the named exceptions or changes nothing |
| `Runs.Run` | tools/retro-fuse/src/v7fs.c:331-1123 | over every run of calls: each block in circulation is free once or at one place in one file's tree, never both and never neither; and up to the first call that gives an inode its 32768th link, every moment is what the call made of the one before, no entry names a free inode, no inode has fewer links than entries, and each call keeps exact counts and the tree exactly as Step says |
| `Runs.TameRun` | tools/retro-fuse/src/v7fs.c:331-1123 | a run without the exceptions and without a 32768th link keeps exact link counts and the tree throughout |
| `Runs.BalancedAccounts` | tools/retro-fuse/ancient-src/v7/sys/alloc.c:27-114 | balanced books account for every block exactly once |
| `Runs.TruncateLosesCount` | tools/retro-fuse/src/v7fs.c:628-648 | truncating any directory in use leaves an inexact link count |
| `Runs.UnlinkLosesCount` | tools/retro-fuse/ancient-src/v7/sys/sys4.c:167-216 | the superuser's unlink of "." and then of the name of any directory just made by mkdir releases it with its ".." live and leaves its parent a link too many |
| `Runs.TruncateWitness` | tools/retro-fuse/src/v7fs.c:628-648 | mkfs, mount and truncate "/" lead to inexact counts |
| `Runs.UnlinkWitness` | tools/retro-fuse/src/v7fs.c:676-684 | mkfs, mount, mkdir "/d", unlink "/d/." and unlink "/d" lead to inexact counts |
| `Runs.RmdirWitness` | tools/retro-fuse/src/v7fs.c:1066-1123 | mkfs, mount, mkdir "/d" and rmdir "/d/../d" lead to a directory without ".." |
| `Overflow.OverflowWitness` | tools/retro-fuse/ancient-src/v7/sys/sys2.c:259-266 | mkfs, mount, creat "/f" and 32767 links to it lead to a free inode that entries still name |
| `Overflow.NextName` | tools/retro-fuse/ancient-src/v7/sys/sys2.c:221-267 | each of the links before the last can be made and leaves the volume in order, with one name more |
| `Patterns.SpansDenotes` | tapes/extracted/install-3.21/files/file-007/include/regexp.h:301-307 | the match that is reported, with its bracket positions and each star as long as it can be, is a match |
| `RegExp.Placed` | tapes/extracted/install-3.21/files/file-007/include/regexp.h:16-17 | PLACE sets the bit of its character and no other |
| `RegExp.HoldsNegated` | tapes/extracted/install-3.21/files/file-007/include/regexp.h:140-144 | negation complements the list over the seven-bit characters other than the terminator |
| `RegExp.Advance` | tapes/extracted/install-3.21/files/file-007/include/regexp.h:264-409 | returns 1 if and only if some prefix of the subject matches what the code means; then the span up to loc2 is the match in which each star in turn is as long as it can be, with braslist and braelist where its brackets begin and end |
| `RegExp.StarLoop` | tapes/extracted/install-3.21/files/file-007/include/regexp.h:399-406 | backing up from the longest run finds the longest one after which the rest matches, if there is any |
| `RegExp.TakeRun` | tapes/extracted/install-3.21/files/file-007/include/regexp.h:380-397 | the greedy loops stop just past the longest run, never past the terminator |
| `RegExp.Step` | tapes/extracted/install-3.21/files/file-007/include/regexp.h:232-262 | finds the first place that matches, or at the beginning only when circf is set; the first-character shortcut changes nothing |
| `RegExp.FirstChar` | tapes/extracted/install-3.21/files/file-007/include/regexp.h:242-246 | code that begins with a literal matches only where that character stands |
| `Compiler.List` | tapes/extracted/install-3.21/files/file-007/include/regexp.h:115-139 | the bit map holds exactly the characters the bracketed list means, ranges included, or the list is in error |
| `Compiler.NextPiece` | tapes/extracted/install-3.21/files/file-007/include/regexp.h:83-228 | one turn of the switch emits an instruction that means what the grammar says, or the grammar's error |
| `Compiler.EscapePiece` | tapes/extracted/install-3.21/files/file-007/include/regexp.h:150-220 | the same after a backslash; bracket numbers are given and closed in order |
| `Compiler.StarTaken` | tapes/extracted/install-3.21/files/file-007/include/regexp.h:97-101 | patching the star into the last instruction means what the grammar says of the star |
| `Compiler.Patched` | tapes/extracted/install-3.21/files/file-007/include/regexp.h:100-100 | or-ing STAR into the code gives the code of the starred instruction |
| `Compiler.Compile` | tapes/extracted/install-3.21/files/file-007/include/regexp.h:41-230 | for every pattern: code whose meaning is the grammar's, or exactly the grammar's error |
| `Compiler.Search` | tapes/extracted/install-3.21/files/file-007/include/regexp.h:41-262 | compile and step together decide whether the pattern matches anywhere, and find the first place and there the match in which each star is as long as it can be; a pattern that begins with a caret is found at the beginning only |
| `PatternWriting.Grep` | tapes/extracted/install-3.21/files/file-007/include/regexp.h:41-262 | for every expression written out as a pattern: found if and only if it matches somewhere, at the first such place, and the end and the bracket positions are those of the match in which each star in turn takes all it can |
| `PatternWriting.PatternRead` | tapes/extracted/install-3.21/files/file-007/include/regexp.h:69-230 | a pattern written out from its structure is read back as that structure: anchor, characters, periods, lists, stars, brackets and final dollar sign |
| `PatternWriting.ListRead` | tapes/extracted/install-3.21/files/file-007/include/regexp.h:124-139 | a list written out is read as exactly the characters and ranges in it |
| `PatternWriting.ReadsDenotes` | tapes/extracted/install-3.21/files/file-007/include/regexp.h:264-409 | an expression matches what the items it is read as denote |
| `PatternWriting.ReadsCuts` | tapes/extracted/install-3.21/files/file-007/include/regexp.h:264-409 | an expression matches a text if and only if the text can be cut into words, one for each part: a character, a run of them, or nothing for a bracket |
| `PatternWriting.PicksOne` | tapes/extracted/install-3.21/files/file-007/include/regexp.h:399-406 | from one place there is only one match in which each star in turn takes all it can, brackets included |
| `PatternWriting.LiteralsAre` | tapes/extracted/install-3.21/files/file-007/include/regexp.h:85-228 | an ordinary character, a period, an escaped one and backslash n as they are written, and what each matches |
| `PatternWriting.ListsAre` | tapes/extracted/install-3.21/files/file-007/include/regexp.h:109-148 | a range, a list of two and a complemented list as they are written, and what each matches |
| `PatternWriting.FindText` | tapes/extracted/install-3.21/files/file-007/include/regexp.h:232-262 | a pattern of ordinary characters is found if and only if the text occurs in the subject, at its first occurrence, and loc2 is its end |
| `PatternWriting.FindAtom` | tapes/extracted/install-3.21/files/file-007/include/regexp.h:232-262 | a single character, period or list is found at the first character it stands for |
| `PatternWriting.FindRun` | tapes/extracted/install-3.21/files/file-007/include/regexp.h:380-406 | a starred one is found at the beginning and takes the whole run there |
| `PatternWriting.FindTail` | tapes/extracted/install-3.21/files/file-007/include/regexp.h:103-107 | text before a final dollar sign is found if and only if the subject ends with it, and there |
| `PatternWriting.Refused` | tapes/extracted/install-3.21/files/file-007/include/regexp.h:89-220 | after any sound beginning: an unopened bracket, a tenth one, a reference to an unclosed one, a newline and an unclosed list give errors 42, 43, 25, 36 and 49 |
| `TapeServer.AskedAgain` | serial_installer/serve_tape.py:222-227 | repeating a request returns the same bytes and changes nothing |
| `TapeServer.AskedInOrder` | serial_installer/serve_tape.py:218-242 | after any numbered request the pending answer is the source at the position |
| `TapeServer.ReaderHasPrefix` | serial_installer/serve_tape.py:218-242 | over any run of numbered requests, what a reader has put together is exactly a prefix of the file, and it never shrinks |
| `TapeServer.Server.Numbered` | serial_installer/serve_tape.py:218-242 | the session changes as Asked says; a new number commits the acknowledged answer |
| `TapeServer.Server.Commit` | serial_installer/serve_tape.py:229-229 | the position advances by an answer whose whole XMODEM session was acknowledged over the line |
| `TapeServer.Server.Deliver` | serial_installer/serve_tape.py:259-276 | it returns only when the input began with some NAKs and an ACK, now taken, and the packet went out once for each of them; on any other byte, or when the input ends, it fails having sent it once more |
| `TapeServer.Server.SendBlocks` | serial_installer/serve_tape.py:247-276 | if it returns, the input held for every block, and for the end of transmission, some NAKs and then an ACK, and the output is exactly each packet once for each of these |
| `TapeServer.SessionDelivers` | serial_installer/serve_tape.py:247-279 | a receiver that answered as the server heard, the end included, has returned the payload's length, and has the payload if its driver sets the destination again or it stored just so many bytes |
| `TapeServer.Server.ReadNumbered` | serial_installer/serve_tape.py:207-279 | answers exactly as the command's law says: the session changes as Asked says for the number and count received, and not at all on a bad checksum, which is refused; the answer's blocks and the end go out once for each byte of the line until acknowledged |
| `TapeServer.Server.ReadLegacy` | serial_installer/serve_tape.py:280-292 | answers exactly as the command's law says: the position advances by the whole answer exactly when it was sent, and then the input held the NAKs and the ACK for it |
| `TapeServer.Server.SpaceForward` | serial_installer/serve_tape.py:296-322 | selects the file so many further on, at its start, exactly when the request is sound and the file exists; otherwise refuses and changes nothing |
| `TapeServer.Server.Open` | serial_installer/serve_tape.py:169-191 | selects the file at its start exactly when the request is sound and the file exists; otherwise refuses and changes nothing |
| `TapeServer.Server.Serve` | serial_installer/serve_tape.py:161-332 | for every input: the output, what is left of the input, the session and whether the server goes on are what answering the commands one after the other gives, by first byte; the position stays within the file, the pending answer is the file's bytes there, the committed bytes are the file's prefix up to the position |
| `TapeServer.Server.OpenLaw` | serial_installer/serve_tape.py:169-191 | what an open request makes of the session and the line, from its bytes: accepted with ACK exactly if signature, version, checksum and file are right, else CAN |
| `TapeServer.Server.ReadLaw` | serial_installer/serve_tape.py:192-279 | a numbered read of what comes next, every packet acknowledged: exactly the packets of the next count of bytes of the file and the end go out, and the session has moved there |
| `TapeServer.Server.LegacyLaw` | serial_installer/serve_tape.py:198-206 | a read of the old kind, from its bytes: CAN on a bad checksum, the end at the end of the first files, else one frame with the next bytes, and the position past them once acknowledged |
| `TapeServer.Server.SpaceLaw` | serial_installer/serve_tape.py:296-322 | a space-forward request, from its bytes: ACK and the start of the file so many further on exactly if the checksum is right and there is one, else CAN |
| `TapeServer.Server.ReadThrough` | serial_installer/serve_tape.py:192-279 | a reader that asks with the numbers in turn, everything acknowledged, is sent exactly the packets of one slice of the file after another, from where the session stood |
| `TapeServer.Server.Transfer` | serial_installer/serve_tape.py:169-279 | from an open on, with such a reader: all that goes out over the whole serve loop is ACK and the packets of a prefix of the file |
| `TapeServer.PiecesAre` | serial_installer/serve_tape.py:206-234 | the slices asked for one after another are together the bytes of the file from the first one on |
| `TapeServer.FrameBytes` | serial_installer/serve_tape.py:83-89 | a frame is STX, the count high byte first, the bytes, the exclusive or of count and bytes, and ETX |
| `Xmodem.PacketSound` | serial_installer/serve_tape.py:92-96 | a packet passes the receiver's checks and carries its number and data |
| `Xmodem.PacketBytes` | serial_installer/serve_tape.py:92-96 | a packet's 133 bytes: SOH, the number, its complement, the data, and the CRC high byte first |
| `Xmodem.CheckValue` | serial_installer/serve_tape.py:99-105 | the CRC of the text 123456789 is 0x31C3 |
| `Xmodem.Hearing` | serial_installer/xmodem_receive.inc:10-85 | the receive core, byte by byte, answers and stores as Listen says: in particular it stores what poses as the awaited block before it knows the CRC |
| `Xmodem.Arrives` | serial_installer/xmodem_receive.inc:32-85 | a packet that arrives is stored if awaited and acknowledged again if just stored |
| `Xmodem.Survives` | serial_installer/serial_ct.s:165-176 | damage is refused ten times in a row and no more, and leaves what was stored alone unless it posed as the awaited block and the driver does not set its destination again |
| `Xmodem.SendBlock` | serial_installer/serve_tape.py:259-268 | the receiver stores the block once, whatever is damaged and refused, and stays in step, unless the mishaps end the session |
| `Xmodem.SendEot` | serial_installer/serve_tape.py:269-276 | the end of transmission brings the receiver to return, unless the mishaps end the session |
| `Xmodem.Session` | serial_installer/serial_ct.s:154-187 | for every payload of whole 128-byte blocks that was asked for and every finite list of mishaps: the call returns the payload's length if and only if the mishaps do not break the session (eleven bad packets in a row, or damage that begins with CAN, or with EOT before all is there); and then just the payload has been stored if and only if the driver sets its destination again for each packet or no damage posed as the awaited block |
| `Xmodem.StrayFirst` | serial_installer/xmodem_receive.inc:63-75 | one four-byte burst before the first block: serial_ct.s returns the full length with every byte one place off |
| `Xmodem.BlockHeard` | serial_installer/xmodem_receive.inc:32-85 | the first acknowledged sending of a block, to a receiver that still listens, means that it was stored once |
| `Xmodem.Delivered` | serial_installer/xmodem_receive.inc:10-85 | a receiver that listens after so many acknowledged blocks has them |
| `Xmodem.EotHeard` | serial_installer/serial_ct.s:178-187 | a receiver that acknowledged the end has returned the payload's length |
| `Crc.BuildTable` | filesystem/tools/read_dump.py:51-56 | entry i is what eight steps of the register make of i in the top byte |
| `Crc.TableCrc` | filesystem/tools/read_dump.py:59-63 | the table-driven loop computes the bit-serial CRC of every message |
| `Crc.FeedByTable` | filesystem/tools/verify_tape_crc.py:51-55 | one table step is eight register steps |
| `Crc.ShiftsLinear` | filesystem/tools/verify_tape_crc.py:8-10 | the register is linear |
| `Crc.TrailerZero` | tapes/build_tape_images.py:201-203 | a message and two more bytes have CRC zero if and only if the two bytes are its CRC |
| `Crc.RecordResidue` | filesystem/tools/verify_tape_crc.py:14-16 | a whole record leaves residue 0x0027 if and only if the stored CRC is right |
| `Crc.FlipEffect` | filesystem/tools/verify_tape_crc.py:63-80 | one flipped bit changes the CRC by the register's state after as many steps as the bit is from the end |
| `CrcPeriod.Period` | filesystem/tools/verify_tape_crc.py:37-55 | the register comes back to a lone bit after multiples of 32767 steps and at no other time |
| `CrcPeriod.TwoFlips` | filesystem/tools/verify_tape_crc.py:63-80 | two flips of a payload satisfy the same CRC if and only if their distance in bits is a multiple of 32767 |
| `CrcPeriod.FlipShows` | filesystem/tools/verify_tape_crc.py:69-70 | a flipped bit always changes the CRC |
| `CrcPeriod.RepairSingleBit` | filesystem/tools/verify_tape_crc.py:63-80 | returns the first bit whose flip satisfies the CRC; nothing if the CRC was right or no flip does |
| `CrcPeriod.Repaired` | filesystem/tools/verify_tape_crc.py:63-80 | a payload damaged in one bit is always found repairable, and restored if it is shorter than 4096 bytes; of 4096 bytes it is restored if and only if the damaged bit is not the last |
| `TapImages.ReadTap` | tapes/extract_tape_images.py:71-98 | files split at marks, records unframed; any other private marker, a bad length or an unfinished file is an error |
| `TapImages.WriteTapTo` | tapes/build_tape_images.py:224-231 | for every list of files: each record framed, a zero after each file, the end-of-medium marker last |
| `TapImages.WriteRecordTo` | tapes/build_tape_images.py:215-221 | length, payload, padding of odd lengths, length |
| `TapImages.RecordLayout` | tapes/build_tape_images.py:215-221 | the bytes of a record: its length, the payload, a zero after an odd one, the length again |
| `TapImages.MarkerLayout` | tapes/build_tape_images.py:215-221 | a length or mark is four bytes, least significant first |
| `TapImages.MarksAre` | tapes/build_tape_images.py:224-260 | a file ends with four zeros and a tape with four bytes 255; track n begins with n and 0x70 in the high byte |
| `TapImages.RecordNext` | tapes/extract_tape_images.py:84-95 | a record of 1 to 2^28-1 bytes, odd or even, is read back |
| `TapImages.RecordBad` | tapes/extract_tape_images.py:84-95 | a record is an error exactly if it is cut short or its two lengths differ |
| `TapImages.RoundTrip` | tapes/build_tape_images.py:224-231 | reading back what write_tap wrote returns the same files if and only if every record has 1 to 2^28-1 bytes |
| `TapImages.DecodeKeeps` | tapes/extract_tape_images.py:80-83 | files already read are never changed |
| `TapImages.ReadSadieTap` | tapes/extract_tape_images.py:101-148 | tracks split at their markers; data before the first, a repeated or missing track number, or an unfinished file is an error |
| `TapImages.SadieRoundTrip` | tapes/build_tape_images.py:250-260 | reading back what build_sadie wrote returns every track with its files and records |
| `TapImages.NoTrack` | tapes/extract_tape_images.py:110-128 | a tape that does not begin with a track marker is an error |
| `TapImages.OneTrack` | tapes/extract_tape_images.py:110-147 | a track that comes twice, a single track not numbered 0, or a record outside a finished file is an error |
| `DumpStream.TakeSlot` | filesystem/tools/read_dump.py:152-163 | begun at map index a with logical block l, stops at the first nonzero entry j from a on, which is logical block l + (j - a); or at the end of the map |
| `DumpStream.Parse` | filesystem/tools/read_dump.py:139-193 | finds the highest record and returns the tape header, inode sizes, blocks by inode and logical block, the order of inodes, the missing records and the orphans, in one pass in which a missing record still uses up a map slot |
| `DumpStream.KthBlock` | filesystem/tools/read_dump.py:152-192 | with no header in between, the k-th data record after an inode's header is the logical block whose map entry is the k-th that is not zero; past the last such entry it belongs nowhere |
| `DumpStream.KthContinued` | filesystem/tools/read_dump.py:182-192 | the same after a continued map, counting on from the logical block reached |
| `DumpStream.ParsedBlock` | filesystem/tools/read_dump.py:188-192 | so parse returns that record under that inode and logical block, if no two records share a place |
| `DumpStream.ParsedMeans` | filesystem/tools/read_dump.py:146-190 | the missing records are those absent below the highest, the orphans the data records without a place, and an inode has a size exactly if it has a header |
| `DumpStream.SizeIs` | filesystem/tools/read_dump.py:176-178 | an inode's size is that of its last header |
| `DumpStream.HeaderFields` | filesystem/tools/read_dump.py:122-136 | a header's type, inode, tape address, size and map, byte by byte |
| `DumpStream.HeaderChecked` | filesystem/tools/read_dump.py:122-126 | a record is a header exactly if magic number and checksum are right; a header with one word damaged is none |
| `DumpStream.ParseAfterLoss` | filesystem/tools/read_dump.py:139-193 | parse of the damaged tape, whose highest record may be a lower one: the same inodes, sizes and order, and the same blocks but exactly those whose records were lost |
| `DumpStream.SharedPlace` | filesystem/tools/read_dump.py:176-192 | a tape with an inode's header and block twice: two records share a place, and losing the later brings the earlier back |
| `DumpStream.StateKept` | filesystem/tools/read_dump.py:167-170 | a lost data record leaves the state after it as if it had been read |
| `DumpStream.SlotKept` | filesystem/tools/read_dump.py:165-192 | losing data records moves no other record, headers repeated or not |
| `DumpStream.OneHeaderUnshared` | filesystem/tools/read_dump.py:176-192 | with one header for each inode no two records belong in one place |
| `DumpStream.LossIsLocal` | filesystem/tools/read_dump.py:139-193 | if no two records belong in one place, losing any set of data records deletes exactly their logical blocks, changes no other and no inode |
| `DumpStream.LossExact` | filesystem/tools/read_dump.py:139-193 | every loss of data records is local if and only if no two records belong in one place |
| `DumpStream.FileData` | filesystem/tools/read_dump.py:230-236 | the file's bytes, byte o from logical block o / 512, zeros where a block is absent |
| `DumpStream.DamagedFile` | filesystem/tools/read_dump.py:230-236 | a byte of a file from a damaged tape is right, or zero where its record was lost |

## Left out

- `ByteFiles.WriteChunk`: offsets past the triple-indirect limit are `ByteFiles.WritePast`.
- `ByteFiles.Writei`: writes reaching past the triple-indirect limit, after which i_size is beyond what readi and bmap can reach; one turn of its loop there is `ByteFiles.WritePast`.
- `ByteFiles.FsWrite`: the same.
- `Volumes.Volume.Write`: the same.
- `Calls.WriteCall`: a write that would pass the limit is refused whole, where the source writes up to it and then does what `ByteFiles.WritePast` says.
- `Volumes.Volume.Ialloc`: an i-list whose inode 1 is free, for which ialloc would search for ever. mkfs allocates inode 1 and nothing frees it.
- `Volumes.Volume.Scan`: the inode table is not bounded here, so some place of it is unused. `InodeCore.ZeroListed` says what a full one changes.
- `Calls.LinkCall`: a directory at the triple-indirect limit refuses the new name; likewise `Calls.CreatCall` and mkdir.
- `InodeCore.Table.Modify`: values out of the disk's range are not put in core; `InodeCore.InodeRoundTrip` says that they would not come back.
- `InodeCore.Table.Iput`: giving the blocks back and ifree are in `Volumes.Volume.Iput`; here only the inode's own fields change.
- `NewVolumes.Mkfs`: writes the root's entries through writei rather than into the buffer alloc returned.
- `TreeCalls.MkdirCall`: what namei and iput do after the parent's count has wrapped round; `TreeCalls.AfterOverrun` says where its paths lead then.
- `Runs.Run`: descriptors; an open file is named by its inode, and whether a descriptor is free is part of the call. The run ends with a call that wraps a link count round.
- `OnDisk.Sync`: that table and list mirror the volume's inodes is a precondition, kept by paired changes (`OnDisk.MirrorsKept`) but not carried through every run, so ENFILE from a full table is not among the failures of a run.
- I/O errors: every transfer succeeds, so the B_ERROR branches are not taken.
- Sleeping, waking and interrupts: one process on one device, as the adapter runs it.
- The superblock's own encoding; its buffer is held but its bytes are not modelled.
- Reference counts are unbounded integers; with twenty descriptors i_count does not overflow.
- Permissions, owners, set-user-id, device files, pipes, mounts inside a volume, and v7fs_rename. Of the times only their bytes in a disk inode are modelled.
- Regular expressions: repetition counts and back references (a starred empty back reference does not end), a code buffer that is too small, a set `locs`, and text that ends after a backslash or a dash in a list.
- `PatternWriting.Grep`: patterns in the plain forms. A list with a dash, a caret or a bracket as a character, a doubled star, and a star or dollar sign that stands for itself are in the grammar of `Compiler.Search` only.
- The tape server: pacing, logging and the watchdog; `Server.input` is the whole input in advance.
- The XMODEM receivers: time, so that a pause is what ends a message; a message that follows a good packet before the answer to it; and the record bookkeeping of `sadie_tape_serial.s`, for which the room left stands.
- Dump streams: reassembly when a continued address map ends in a hole, adoption of orphaned directory blocks, and path names.
- The host drivers, patchers, inventories and emulator harnesses.
