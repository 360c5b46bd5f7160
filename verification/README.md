# A verified model of the boot loader's algorithmic code

The boot loader brings its own heap, its own ext2 reader on an IDE disk stack, a digest, checksums,
number formatting and two small network protocol machines. This project models that code in Dafny and
proves what it is for. All machine arithmetic is 32-bit unless a file says otherwise, and wrap-around is written
out where the code relies on it; the words of the digest are bit vectors. `dafny verify dfyconfig.toml` checks everything.

| part | files |
|---|---|
| heap (dlmalloc 2.8.3) | `Words`, `Chunks`, `TreeIndex`, `Rings`, `Tries`, `TrieLinks`, `TrieRelink`, `TreeBinState`, `TreeBinUnlink`, `TreeSearch`, `TreeBins`, `SmallBins`, `Tags`, `HeapState`, `BinOrder`, `Heap`, `HeapRuns`, `HeapReplay` |
| disk and ext2 | `Bytes`, `Ata`, `DiskStack`, `Ext2Layout`, `Ext2BlockList`, `Ext2Blocks`, `Ext2Names`, `Ext2Records`, `Ext2Limits`, `Ext2Files` |
| digest, checks, numbers | `Sha1`, `Sha1Laws`, `Sha1Abc`, `Sha1Long`, `Crc`, `Checksum`, `Random`, `Numbers` |
| network | `RxRing`, `Lacp` |

**The heap.** The configuration is FOOTERS=0, MSPACES=0, USE_LOCKS=0, 4-byte sizes and one contiguous segment;
main/malloc.c, which sets it, is not part of this model. The bins are kept as the code keeps them: `fd`/`bk` links,
children and parents of tree chunks, roots and the two bin maps, all in maps and words that the methods reassign. The
tries, rings and chunk lists that they stand for are ghost state. `TreeBins.Contents` and `SmallBins.Contents` are the
binned chunks with their sizes, and `Heap.Valid` ties them to the boundary tags: every free chunk is the top chunk, the
designated victim, or in the bin of its size. A header that a merge makes meaningless is removed from the model, so
that reading it would fail to verify. The contracts of `Malloc` and `Free` fix the whole new state: the designated
victim, the chunks in use and free, and the order of every bin. `BinOrder` says what these orders are, a stack for
each small size and a queue for each large one, and `HeapReplay.Replayed` draws the conclusion: the operations alone decide
which addresses a run returns. What the system adds to the segment is a parameter of `Malloc` (`grant`, 0 for a refusal).

**Disk and ext2.** A drive is a sequence of sectors and a pattern of transfers that fail; what it is asked for it takes from its
registers alone (`Ata.Decoded`), which tell reads from other commands, one drive of the channel from the other and the
kinds of addresses from each other. A ghost counter in `Disk` holds the
faults so far, and the contracts above it say what a call returns when the counter stays and what it may return when it moves.
The ext2 classes sit on the partition window, the sector cache and the ATA registers, so that a slice of a
file is a slice of the raw drive. Beside the reader stands the layout as it is written: `Ext2BlockList` lists the blocks of
a file in order, and `Ext2Records` writes inodes, directory records, links and paths, which the reader's parsers give back. Preconditions of the source are stated as such: block sizes up to 4096, block offsets
below 2^32, group descriptors and inodes inside the partition, directory records that tile their blocks, strings in the block buffer that end there, no lookup of
the name of an unused record (its inode number 0 would be passed to `ext2_iget` as a valid one), a file descriptor below 32 (the
code's own test lets 32 through).

Where the code does less than one might expect, the model follows the code and says exactly when it is right:

- `ind2lim` stops one indirect block short: `ReaderCoverage` (if and only if), and `BeyondReach` for a file on which it does.
- A run of blocks that starts with a hole swallows a following block 1: `GroupingSound` (if and only if).
- A failed read of an indirect block is reported as a hole, so a read may succeed with zeros. A read that succeeds is sure to be right, whatever fails, if and only if its range holds nothing but zeros behind the blocks that the inode itself lists: `SafeToRead`. A drive that has died gives exactly those zeros: `Read`, `DeadReadRight`, `DeadRead`, and `LostRead` for a concrete file. `Read` and `Session` bound the blocks lost by the transfers that failed.
- Such a block of zeros is never left by a directory search: `SearchEnds` says for which names a search ends whatever fails (if and only if), `NeverEnds` gives a directory on which it does not, and `FindEntry` requires no more than that.
- The text of a link that is stored in a block is looked up in the buffer into which the directories are read. It is compared as the directory's own bytes, whatever it was (`OwnBytes`), and practically never found: `LongLinkLost`.
- Tokenising a path cuts it at its first separator, so relative links always start at the root: `DirectoryPartLost`.
- Every link that is followed keeps its slot, so opening succeeds if and only if something else comes before the slots run out; a cycle uses up the table: `Open`.
- `ide_read` lets through the sector behind the last; a drive answers it, with its first sector, if and only if it is as large as its addresses allow: `BehindTheLast`. A track size that does not divide 2^32 would break the sector cache on large disks: `TracksAligned` (if and only if); the IDE driver sets one sector (main/eb/ide_disk.c:747 and :865), and so does `Disk`.
- Printed numbers come back from the parser if and only if no space or plus sign comes first, nor an upper-case `0X`: `SignedRoundTrip`, `UnsignedRoundTrip`, `PrefixRoundTrip`.
- A bad frame takes all frames behind it along: `GoodBehindBad`; `AllDelivered` says when nothing is lost (if and only if).
- The generator reaches zero from the multiples of its modulus and from nothing else: `ZeroOnlyFromMultiples`.

## Model

| member | source | states |
|---|---|---|
| Words.MarkBits | main/dl-malloc.h:2295-2301 | setting a bin's bit in a map marks that bin and changes no other mark |
| Words.ClearBits | main/dl-malloc.h:2295-2301 | clearing a bin's bit unmarks that bin and changes no other mark |
| Words.LeastBitIsLowest | main/dl-malloc.h:2333-2333 | `x & -x` is the lowest set bit alone, so the bit scan finds the same index in it as in `x` |
| Words.NoLaterBin | main/dl-malloc.h:2335-2336 | the map under left_bits is zero exactly when no later bin is marked |
| Words.FirstLaterBin | main/dl-malloc.h:2306-2336 | left_bits, least_bit and compute_bit2idx together give the first marked bin after a given one |
| TreeIndex.IndexInterval | main/dl-malloc.h:2241-2253 | every size of at least 256 gets the bin whose minsize interval contains it |
| TreeIndex.PortableIndexIs | main/dl-malloc.h:2255-2271 | the branch-free form gives every 32-bit size the same bin as the bit scan |
| TreeIndex.PortableBitIndexIs | main/dl-malloc.h:2318-2328 | the branch-free compute_bit2idx gives the index of every isolated bit, as the bit scan does |
| TreeIndex.InBinUnique | main/dl-malloc.h:2283-2286 | no size lies in the intervals of two bins |
| TreeIndex.LaterBinsAreLarger | main/dl-malloc.h:2283-2286 | every size of a later bin is larger than every size of an earlier one |
| TreeIndex.BinPrefix | main/dl-malloc.h:2278-2281 | all sizes of a bin share the bits above those that its trie resolves, and the shift brings the first of these to the sign |
| Rings.InsertKeepsRing | main/dl-malloc.h:2985-3002 | linking a chunk in behind the first one keeps a circular list, with exactly one more element |
| Rings.RemoveKeepsRing | main/dl-malloc.h:3004-3021 | unlinking one keeps a circular list of exactly the others |
| SmallBins.SmallBins.constructor | main/dl-malloc.h:3325-3336 | all small bins start empty and in order |
| SmallBins.SmallBins.Insert | main/dl-malloc.h:2985-3002 | the bins stay in order (marks exactly on non-empty rings) and hold exactly one chunk more, the first of its bin |
| SmallBins.SmallBins.Unlink | main/dl-malloc.h:3004-3021 | the bins stay in order and hold exactly one chunk less |
| SmallBins.SmallBins.UnlinkFirst | main/dl-malloc.h:3024-3038 | the first chunk of a marked bin leaves it, and it has the bin's size |
| SmallBins.SmallBins.Remainderless | main/dl-malloc.h:4321-4328 | finds the smallest fit in the bin of the size or the next one, or shows that every larger chunk leaves a remainder of at least 16 bytes |
| SmallBins.SmallBins.NextFit | main/dl-malloc.h:4340-4349 | finds the smallest chunks that fit, or shows that no small chunk does |
| Tries.InsertOk | main/dl-malloc.h:3056-3105 | adding a size keeps the trie: each level fixes one more size bit |
| Tries.LeftBelowRight | main/dl-malloc.h:2714-2717 | sizes on the left of a node are below those on its right |
| Tries.HeightBound | main/dl-malloc.h:3072-3103 | a trie is no higher than the number of bits its bin leaves open, so the unbounded insertion loop ends |
| Tries.LeftMinIsLeast | main/dl-malloc.h:3871-3880 | the leftmost walk meets the smallest size of a subtree |
| Tries.FindOk | main/dl-malloc.h:2666-2723 | a size of the trie is where its bits lead |
| Tries.DropNodeOk | main/dl-malloc.h:3138-3153 | putting a leaf of its own subtree in the place of a node keeps the trie and removes exactly that size |
| TrieRelink.RelinkReplaces | main/dl-malloc.h:3154-3192 | the pointer updates at the end of unlink_large_chunk make the links represent the trie with the replacement in place |
| TreeBinUnlink.PromotedOk | main/dl-malloc.h:3124-3192 | when a tree member leaves a ring of several chunks, its predecessor takes its place and all bins stay in order |
| TreeBinUnlink.DroppedOk | main/dl-malloc.h:3138-3192 | when the last chunk of a size leaves, a leaf below it takes its place, or its bin is unmarked |
| TreeBins.TreeBins.Insert | main/dl-malloc.h:3056-3105 | all tree bins stay in order and hold exactly one chunk more; the walk ends because each level consumes a size bit |
| TreeBins.TreeBins.Unlink | main/dl-malloc.h:3124-3193 | all tree bins stay in order and hold exactly one chunk less |
| TreeBins.TreeBins.Seek | main/dl-malloc.h:3831-3857 | the walk towards the requested size ends at an exact fit or at the deepest untaken right subtree, with nothing better elsewhere in the bin |
| TreeBins.TreeBins.NextBin | main/dl-malloc.h:3859-3869 | the root of the first later non-empty bin; nothing that fits is smaller than its smallest chunk |
| TreeBins.TreeBins.BestFit | main/dl-malloc.h:3822-3880 | one search path and one leftmost path find a chunk of the smallest size not below the request over all tree bins, the tree member of that size, and none exactly when every chunk is too small |
| TreeBins.TreeBins.Smallest | main/dl-malloc.h:3909-3931 | the smallest of all tree chunks, from one leftmost path; the tree member of that size |
| Tags.TakenOk | main/dl-malloc.h:2441-2444 | marking a free chunk and its successor keeps all tags in agreement |
| Tags.SplitOk | main/dl-malloc.h:1719-1724 | splitting a free chunk keeps all tags in agreement |
| Tags.FreedOk | main/dl-malloc.h:1719-1724 | merging a run of chunks into one free chunk keeps all tags in agreement when no free chunk borders it |
| Tags.FreedTopOk | main/dl-malloc.h:4502-4515 | so does giving a run of chunks to the top chunk |
| Tags.Neighbours | main/dl-malloc.h:4460-4501 | what dlfree finds before and after a chunk in use: the footer leads to a free chunk, and no free chunk lies beyond the merged ones |
| HeapState.PaddedFits | main/dl-malloc.h:1664-1676 | the padded size is a legal chunk size with room for the request and its overhead, and small exactly for small requests |
| HeapState.BetterThanDv | main/dl-malloc.h:3882-3883 | the unsigned comparison means that the designated victim is too small or fits worse |
| BinOrder.FirstInLine | main/dl-malloc.h:3024-3038 | the chunk that is taken of those of one size is the one at the head of their line |
| BinOrder.Comes | main/dl-malloc.h:2985-3105 | a small chunk comes to the head of the line of its size, a large one to its end, and no other line changes |
| BinOrder.Goes | main/dl-malloc.h:3004-3153 | a chunk leaves its line wherever it stands, and all others keep their places, although a tree member is replaced by its ring predecessor |
| Heap.Heap.InOrder | main/dl-malloc.h:2689-2800 | the lines of a heap in order hold exactly the binned chunks, each in the line of its size |
| Heap.Heap.constructor | main/dl-malloc.h:3308-3336 | a new heap is in order, with nothing in use |
| Heap.Heap.ReplaceDv | main/dl-malloc.h:3042-3051 | the old designated victim is binned, the new one takes its place |
| Heap.Heap.SmallRequest | main/dl-malloc.h:4316-4376 | serves the request from the first of the best fitting binned chunks, of which a remainder becomes the designated victim and an old victim is binned, or leaves the heap alone because the designated victim will do or nothing fits |
| Heap.Heap.TreeSmall | main/dl-malloc.h:3908-3952 | serves a small request from the smallest tree chunk; a remainder becomes the designated victim |
| Heap.Heap.TreeLarge | main/dl-malloc.h:3822-3906 | takes the best fit of all free chunks and bins a remainder, and declines exactly when no tree chunk fits or the designated victim fits at least as well |
| Heap.Heap.FromRest | main/dl-malloc.h:4389-4425 | designated victim, top chunk and system in this order, with what each leaves; fails exactly when none of them suffices |
| Heap.Heap.Malloc | main/dl-malloc.h:4286-4433 | the heap stays in order; a block is returned exactly when some free chunk or the grown top chunk is large enough; it is aligned, at least the padded size and less than 16 bytes above it; one more chunk is in use and nothing else changes; it comes from the designated victim, from the first of the best fitting binned chunks, or from the top chunk if nothing else fits; large requests get the best fit of all free chunks; a remainder of a small request or of the victim is the new designated victim, with the old one binned, that of a large request is binned, and a victim used up is gone; the segment grows only if nothing else fits |
| Heap.Heap.Free | main/dl-malloc.h:4435-4552 | the heap stays in order; exactly the released chunk leaves the set in use, merged with its free neighbours or into the top chunk; the merged chunk is the designated victim exactly if that was one of the neighbours and is binned otherwise; a victim that goes into the top chunk leaves none; the segment keeps its size |
| HeapRuns.WalkMeetsAll | main/dl-malloc.h:2815-2851 | the walk from the base of the segment meets every chunk |
| HeapRuns.ChunksTile | main/dl-malloc.h:2815-2851 | every byte below the top chunk belongs to exactly one chunk |
| HeapRuns.FreeChunksApart | main/dl-malloc.h:2621-2645 | no two free chunks touch, none touches the top chunk, and footers agree |
| HeapRuns.BytesConserved | main/dl-malloc.h:2853-2883 | bytes in use, free bytes and the top chunk add up to the segment |
| HeapRuns.BlocksDisjoint | main/dl-malloc.h:2648-2662 | blocks in use never overlap, nor a header, a free chunk or the top chunk |
| HeapRuns.Run | main/dl-malloc.h:4286-4552 | every sequence of allocations and releases: each allocation and each release does all that dlmalloc and dlfree promise, victim and bins included; at every moment the heap is in order, the blocks in use are those the operations and the addresses returned leave, all well placed and sized, every binned chunk stands in its line, and bytes are conserved |
| HeapReplay.SameMalloc | main/dl-malloc.h:4286-4433 | two heaps of the same shape return the same address for a request and stay of the same shape |
| HeapReplay.SameFree | main/dl-malloc.h:4435-4552 | two heaps of the same shape stay so when the same block is released |
| HeapReplay.Replayed | main/dl-malloc.h:4286-4552 | the operations of a run alone decide which addresses it returns and what the heap is at every moment |
| Ata.SetRegisters | main/eb/ide_disk.c:267-294 | whatever the registers held, the writes leave the low byte in each current and the high byte in each previous position |
| Ata.ChsExact | main/eb/ide_disk.c:376-400 | by its registers alone the selected drive is asked to read the one sector if and only if cylinder, head and sector fit their fields |
| Ata.Lba28Exact | main/eb/ide_disk.c:402-418 | by its registers alone the selected drive is asked to read the one sector if and only if that has at most 28 bits |
| Ata.Lba48Exact | main/eb/ide_disk.c:420-436 | by its registers alone the selected drive is asked to read the one sector if and only if that has at most 48 bits |
| DiskStack.ModeReaches | main/eb/ide_disk.c:450-458 | within its reach every mode makes the selected drive, which knows only its registers, read exactly the sector asked for |
| DiskStack.BehindTheLast | main/eb/ide_disk.c:447-458 | in every addressing mode a drive is asked for the sector behind its last one, unless it is as large as its addresses allow, and then for its first sector |
| DiskStack.TracksAligned | main/disk.c:67-76 | every sector of a cached track finds its start again, on disks of any size, if and only if the track size divides 2^32 |
| DiskStack.Disk.FillCache | main/eb/ide_disk.c:439-468 | succeeds for a sector of the drive exactly when the transfer does; the cache then holds that sector and is empty after a failure; nothing behind the drive is answered unless the drive is full |
| DiskStack.Disk.Read | main/disk.c:58-89 | a successful read of a sector of the drive returns that sector, whatever was read or failed before; a read of one fails exactly when a transfer fails; behind the drive nothing is read unless it is full |
| DiskStack.Partition.constructor | main/partition.c:24-29 | the window covers the given sectors |
| DiskStack.Partition.Read | main/partition.c:31-57 | refuses reads outside the window and returns the sectors up to the first failure, which is the only one counted |
| DiskStack.CallersCovered | main/e2/ext2fs.c:112-138 | for all callers the sectors fetched cover the bytes copied |
| DiskStack.ReadBytes | main/e2/ext2fs.c:102-154 | succeeds exactly when the sectors lie in the partition and no transfer fails, and returns exactly those bytes of the partition |
| Ext2Layout.QuotientBelow | main/e2/ext2fs.c:311-330 | both indices into the indirect blocks are in range |
| Ext2BlockList.FullWalkIsList | main/e2/ext2fs.c:250-339 | going down the pointer tree gives, for every offset, the element of the list of the direct blocks, all entries of the indirect block and all entries of each block that the double-indirect block lists, in this order |
| Ext2BlockList.WalkIsList | main/e2/ext2fs.c:250-339 | the reader finds the same list, short of its last ptrs_per_blk elements |
| Ext2BlockList.FileIsBlocks | main/e2/ext2fs.c:620-642 | the bytes of a file are the blocks of the list, end to end, with holes as zeros |
| Ext2Layout.ReaderCoverage | main/e2/ext2fs.c:837-840 | the reader maps what the layout maps except for the last ptrs_per_blk blocks, which it takes for holes |
| Ext2Layout.BeyondReach | main/e2/ext2fs.c:837-840 | a file of which these blocks are mapped by the layout and are holes to the reader |
| Ext2Layout.GroupingSound | main/e2/ext2fs.c:351-372 | reading by runs gives the same bytes as block by block on every disk if and only if block 1 never follows a hole |
| Ext2Blocks.BlockReader.constructor | main/e2/ext2fs.c:821-822 | both block caches start empty |
| Ext2Blocks.BlockReader.LoadIndirect | main/e2/ext2fs.c:278-286 | succeeds exactly when the block is cached, or lies in the partition and no transfer fails; the buffer holds the block that the cache number claims, after failures, too |
| Ext2Blocks.BlockReader.BlkNo | main/e2/ext2fs.c:250-339 | 0 if a transfer fails during the call, otherwise the result of a walk without caches (see `Ext2BlockList.WalkIsList`), for any history of files and failures; direct blocks cannot fail; on a dead drive, 0 for every other block whose first indirect block is not cached |
| Ext2Blocks.BlockReader.Run | main/e2/ext2fs.c:356-362 | without failing transfers the grouping loop finds exactly the first run of consecutive blocks; with them it may take the first block for a hole, but never groups blocks that do not follow each other |
| Ext2Blocks.BlockReader.ReadBlocks | main/e2/ext2fs.c:342-381 | without failing transfers the bytes of the blocks run by run; with them, if block 1 is not behind the first, the bytes of the blocks one by one, at most one of them zeros for each failure and none of those in the inode itself |
| Ext2Blocks.DeadRead | main/e2/ext2fs.c:278-340 | on a dead drive every block that the inode itself does not list is read as zeros, and the read succeeds |
| Ext2Blocks.LostRead | main/e2/ext2fs.c:278-286 | a file on which this happens although the block has no zeros |
| Ext2Names.LastSlashIs | main/string.c:111-125 | the backward search finds a separator exactly when there is one behind the first character |
| Ext2Names.DirectoryPartLost | main/string.c:128-154 | what the tokeniser leaves of a path has no directory part |
| Ext2Names.InodeAligned | main/e2/ext2fs.c:192-193 | no inode crosses a sector |
| Ext2Records.InodeReadBack | main/e2/ext2_fs.h:215-238 | an inode written field by field, for all values of the fields, is parsed to its mode, size, block count and pointers |
| Ext2Records.InodeInTable | main/e2/ext2fs.c:185-202 | the inodes of a group stand in its table in the order of their numbers, which start at 1 and run on from group to group |
| Ext2Records.LinkReadBack | main/e2/ext2fs.c:651-660 | the text of a link that is stored in its inode is read as it lies on the disk, up to its end mark |
| Ext2Records.LinkMode | main/e2/ext2fs.c:705-705 | an inode is a link exactly if the upper four bits of its mode are 0xA |
| Ext2Records.DirectoryReadBack | main/e2/ext2fs.c:450-464 | a search in a directory block, written record by record, finds the inode of the first record with the name |
| Ext2Records.PathReadBack | main/string.c:128-154 | the tokeniser gives back the names that a path has been put together from |
| Ext2Names.ZeroBlockStays | main/e2/ext2fs.c:410-411 | the first record of a block of zeros has length 0 and matches no name but the empty one |
| Ext2Names.SearchEnds | main/e2/ext2fs.c:383-464 | a search ends for every pattern of failures if and only if the name is empty or found, or known to be missing, without a block behind an indirect one |
| Ext2Limits.NeverEnds | main/e2/ext2fs.c:450-464 | a directory of 13 blocks and a name for which the search never ends once the indirect block is lost |
| Ext2Limits.OwnBytes | main/e2/ext2fs.c:656-660 | a component in the block buffer finds what the directory block itself holds in its place |
| Ext2Limits.LongLinkLost | main/e2/ext2fs.c:651-690 | a link that is stored in a block leads nowhere if the blocks of the root start with low inode numbers, unless its first component is empty or one character of a relative path |
| Ext2Files.Ext2.constructor | main/e2/ext2fs.c:824-830 | all slots are free and the root is not held |
| Ext2Files.Ext2.Iget | main/e2/ext2fs.c:160-219 | succeeds exactly when a slot is free and no transfer fails; then the first free slot holds the inode as it is on the disk (see `Ext2Records.InodeInTable`), otherwise the table is unchanged |
| Ext2Files.Ext2.Iput | main/e2/ext2fs.c:226-238 | exactly that slot is free again |
| Ext2Files.Ext2.ReadDir | main/e2/ext2fs.c:383-418 | steps through the records of a directory, block after block, without skipping one, unless a transfer fails |
| Ext2Files.Ext2.FindEntry | main/e2/ext2fs.c:450-464 | the first record with the name over all blocks of the directory, and none only if there is none or a transfer failed; the result is the one at which the search model ends for what became of the blocks; ends for every name for which a search can be sure to end |
| Ext2Files.Ext2.Namei | main/e2/ext2fs.c:424-498 | besides the root, success holds exactly one more slot, the first free one, for the inode the path names; failure holds none, and without failing transfers means that the name or a slot is missing |
| Ext2Files.Ext2.FollowLink | main/e2/ext2fs.c:651-690 | one link, stored in its inode or in a block: exactly one more slot on success, the first free one, for what its text leads to; none on failure, which without failing transfers means that the target or a slot is missing |
| Ext2Files.Ext2.Open | main/e2/ext2fs.c:692-760 | ends on every graph of links; without failing transfers it succeeds if and only if the name leads to something else over fewer links than there are free slots; the slots in use grow by the links followed, and by one on success, the first free ones in turn, of which the last is the file's; the file is the one the links lead to, at position 0; a failure stops at a missing target or with no slot left, as every endless chain does; names of PATH_MAX bytes are refused |
| Ext2Files.ChainEnds | main/e2/ext2fs.c:692-713 | where following links ends: only links before it, nothing else reached before the slots run out if it fails, and no slot left if the chain never ends |
| Ext2Files.Ext2.Close | main/e2/ext2fs.c:715-734 | the slot is free again unless it is the root's |
| Ext2Files.Ext2.Seek | main/e2/ext2fs.c:581-594 | succeeds exactly for positions up to the end of the file |
| Ext2Files.Ext2.Read | main/e2/ext2fs.c:596-649 | returns the slice of the file at its position, holes as zeros, and moves the position by its length; after a failure, which takes one more failing transfer if the range lies in the partition, the position stays; at most one block for each failing transfer, and none of those in the inode itself, comes as zeros instead; on a dead drive with nothing cached, behind those blocks, it succeeds with nothing but zeros |
| Ext2Files.SlicesJoin | main/e2/ext2fs.c:620-642 | two reads in a row give what one read of both lengths gives |
| Ext2Files.SafeToRead | main/e2/ext2fs.c:620-642 | a read that succeeds returns the file for every loss of blocks if and only if the range holds only zeros behind the blocks that the inode lists |
| Ext2Files.DeadReadRight | main/e2/ext2fs.c:620-642 | the zeros that a dead drive gives for a range behind those blocks are the file under the same condition |
| Ext2Files.NoDamage | main/e2/ext2fs.c:581-649 | without losses and refusals there is only one way to answer a sequence of reads and seeks |
| Ext2Files.Session | main/e2/ext2fs.c:581-649 | whatever fails, any sequence of reads and seeks returns the slices that the positions select, with zeros for lost blocks, or refusals that keep the position; losses and refusals together are no more than the failing transfers; without these the replies are exactly the undisturbed ones |
| Sha1.Context.constructor | sha1.c:63-86 | a new context stands for the empty message |
| Sha1.Context.ProcessBlock | sha1.c:236-328 | one compression as in section 7 of FIPS PUB 180-1 |
| Sha1.Mix | sha1.c:274-318 | the four loops are the 80 steps of the standard |
| Sha1.Context.Pad | sha1.c:351-397 | the state becomes that of the padded message, over one block or two |
| Sha1.Context.Input | sha1.c:163-213 | accepts a piece in order; refuses one after the digest was taken and keeps the error; notices 2^64 bits |
| Sha1.Context.Result | sha1.c:105-139 | the FIPS PUB 180-1 digest of everything put in, as often as it is asked for; the error code after an error |
| Sha1.HashPieces | sha1.c:63-213 | for every cut of a message into pieces, the digest is that of the whole |
| Sha1Abc.AbcDigest | sha1.c:236-328 | the digest of "abc" is that of Appendix A of FIPS PUB 180-1, by way of its 80 words and steps |
| Sha1Long.LongDigest | sha1.c:236-397 | the digest of the 56-byte message of Appendix B, whose padding goes over the end of a block, is the one given there |
| Sha1Laws.ShiftsAreCircular | sha1.c:42-43 | the shifts are rotations |
| Sha1Laws.Choice | sha1.c:274-275 | in the first twenty steps each bit of B chooses between the bits of C and D |
| Sha1Laws.Parity | sha1.c:286-286 | in the second and last twenty each bit is the parity of the three |
| Sha1Laws.MajorityIfFirstTwo | sha1.c:297-298 | in the third twenty each bit is the one on which B and C agree; `MajorityIfOuterTwo` and `MajorityIfLastTwo` say so for the other pairs |
| Sha1Laws.ConstantsAreRoots | sha1.c:238-243 | the constants are the integer parts of 2^30 times the roots of 2, 3, 5 and 10 |
| Sha1Laws.PaddingIs | sha1.c:351-397 | the padding is one bit, zeros and the length in bits as a 64-bit number, highest byte first, and no longer than it need be |
| Crc.Crc32Le | main/crc.c:22-33 | computes the register as a function of its start and the bytes |
| Crc.StepBijective | main/crc.c:29-30 | each step is a bijection on 32-bit states |
| Crc.CrcLinear | main/crc.c:22-33 | the CRC is linear over exclusive or of states and buffers |
| Crc.CrcIsFeed | main/crc.c:22-33 | byte-wise processing is the same as feeding the bits one by one |
| Crc.PolynomialIs | main/crc.c:19-19 | the polynomial is the one of IEEE 802.3, by its exponents |
| Crc.RemainderCancels | main/crc.c:22-33 | the register is a remainder: data followed by it leave zero |
| Crc.EfiResidue | main/efi.c:25-29 | a buffer followed by its efi_crc32 always leaves the register in the same state |
| Crc.BurstDetected | main/crc.c:22-33 | any change within 32 consecutive bits changes the register |
| Crc.EfiBurstDetected | main/efi.c:25-29 | buffers that differ only within 32 consecutive bits never have the same efi_crc32 |
| Crc.FourBytesDetected | main/efi.c:25-29 | nor do buffers that differ only within four consecutive bytes |
| Checksum.IpChksum | main/eb/misc.c:17-42 | the loop computes the one's complement checksum of the data |
| Checksum.WeightedIsPairs | main/eb/misc.c:17-42 | the sum is that of RFC 1071 over pairs of bytes, an odd one at the end padded with zero |
| Checksum.ChecksumsCompose | main/eb/misc.c:44-61 | add_ipchksums of the checksums of two pieces is the checksum of the whole, for odd lengths, too |
| Checksum.AllOnes | main/eb/misc.c:17-42 | the sum is zero exactly when every byte is zero |
| Random.NoOverflow | main/eb/misc.c:77-78 | no intermediate value overflows 32 bits, for any seed |
| Random.NextIs | main/eb/misc.c:77-79 | the next seed is 40014 times the last modulo 2147483563 |
| Random.ZeroOnlyFromMultiples | main/eb/misc.c:77-79 | zero follows exactly the multiples of the modulus |
| Random.Generator.Random | main/eb/misc.c:68-80 | the state after a call, seeded if need be |
| Random.NeverZero | main/eb/misc.c:68-80 | from a proper seed the state is never zero, so it is never seeded again |
| Numbers.Number | vsprintf.c:89-154 | prints sign, prefix, zeros and digits with the padding that the flags ask for, for every base from 2 to 36 |
| Numbers.DigitsOfTable | vsprintf.c:93-97 | the digits are those of the two strings in the code, lower and upper case |
| Numbers.LayoutLength | vsprintf.c:89-154 | the printed length is the larger of the field width and sign plus prefix plus max(digits, precision) |
| Numbers.DigitCount | vsprintf.c:123-127 | 32-bit numbers never overflow the digit buffer |
| Numbers.SimpleStrToUl | vsprintf.c:33-55 | the value of the leading digits on 32 bits, with the base found from the prefix for base 0; the end pointer is at the first character that is no digit of the base |
| Numbers.SignedRoundTrip | vsprintf.c:57-63 | for every base up to 16, simple_strtol gives back every signed number, the smallest included, if and only if it is zero or nothing unreadable comes first |
| Numbers.UnsignedRoundTrip | vsprintf.c:33-55 | the same for simple_strtoul and every 32-bit value |
| Numbers.PrefixRoundTrip | vsprintf.c:33-63 | numbers printed with a prefix come back with base 0 if and only if they are zero, or nothing unreadable comes first and the prefix is not the upper-case 0X |
| RxRing.Nic.Reset | main/eb/rtl8139.c:310-317 | both sides start over |
| RxRing.ErrorBits | main/eb/rtl8139.c:142-143 | a frame is bad exactly if one of the five status bits that the driver names is set |
| RxRing.CopyIsPacket | main/eb/rtl8139.c:456-468 | the copy in one or two pieces, neither of negative length, is the frame without its check sequence |
| RxRing.StepOver | main/eb/rtl8139.c:477-477 | cur_rx, wrapped at 2^32, stays aligned and at the next frame |
| RxRing.Nic.Poll | main/eb/rtl8139.c:423-484 | an acceptable frame is handed on once, byte for byte; a bad one resets the ring; polling without retrieving changes nothing |
| RxRing.Run | main/eb/rtl8139.c:423-484 | in every run, with frames of any kind, the packets delivered and the frames left in the ring are those of a queue that drops a frame without room and is emptied by a bad one, across all wraps and resets |
| RxRing.FramesConserved | main/eb/rtl8139.c:423-484 | every good frame is delivered, pending or lost |
| RxRing.InOrder | main/eb/rtl8139.c:423-484 | whatever is lost, nothing is made up, repeated or reordered |
| RxRing.AllDelivered | main/eb/rtl8139.c:449-454 | all good frames are delivered in order or pending if and only if none comes without room and none lies behind a bad one that is polled |
| RxRing.GoodBehindBad | main/eb/rtl8139.c:449-454 | a bad frame takes a good one behind it along |
| Lacp.Machine.RecordPdu | main/eb/proto_eth_slow.c:273-291 | the partner's data is taken over; it is in step exactly if it agrees or does not aggregate |
| Lacp.NttMask | main/eb/proto_eth_slow.c:256-257 | the bits compared for the need to transmit are the low half of the state byte |
| Lacp.Machine.SendReports | main/eb/proto_eth_slow.c:317-345 | expired data is first marked, then dropped; nothing is sent without data |
| Lacp.Machine.Tick | main/eb/proto_eth_slow.c:347-350 | what a tick does, and that it sends exactly when the information has just run out or is held and a report is due |
| Lacp.Machine.Process | main/eb/proto_eth_slow.c:352-389 | a received LACPDU starts the long timeout and ends the defaulted state; a report is sent exactly if the partner has other data about the actor or one is due |
| Lacp.Run | main/eb/proto_eth_slow.c:210-389 | every run is the trace that the events determine; data is held exactly as long as the clock allows, and no LACPDU is sent before one is received or after the data was dropped |
| Lacp.TraceByClock | main/eb/proto_eth_slow.c:317-345 | data is held exactly if a LACPDU was heard and no second event came too late, by the times of the events alone |
| Lacp.Silence | main/eb/proto_eth_slow.c:323-335 | a silent partner is dropped by the second late tick |

## Left out

- mmap, mremap, several segments, fenceposts, trimming, mspaces, locks, footers, realloc, memalign and independent allocation of dl-malloc.h: configuration or foreign calls; system memory is the `grant` of `Malloc`.
- Run-time checks against corruption (RTCHECK and the error actions): the invariants show that they never fire for callers that release only live blocks.
- Byte-level aliasing of chunk fields with user data: link fields, headers and footers are separate maps; the word behind top that init_top writes is not modelled, and the segment starts aligned.
- Superblock and group descriptors: read once at start; the inode tables are parameters of the model.
- Directories reached through something that is not one: ext2_namei does not check the type of an inode, so the components of a path are required to be looked up in directories.
- The end marks that the tokeniser writes into a link's text in the inode table: the link's slot is not used again.
- ext2fs_fstat and ext2fs_len: field copies.
- read_lba and the GPT checks of main/efi.c other than the CRC: loops over `disk_read` and field comparisons.
- Port I/O timing, interrupts, device probing, EEPROM and PCI access: hardware effects; the registers and the ring contents are modelled.
- Sums of 64-bit sector numbers do not wrap in the model of partition_read.
- Transmission in rtl8139.c, marker PDUs in proto_eth_slow.c and the wrapping of the tick counter: the model's clock is positive and does not wrap.
- DHCP, TFTP, ARP, the console, the rest of vsprintf and the kernel hand-over.
