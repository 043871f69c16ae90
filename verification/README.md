# Verified models of the Gecko OS kernel

This project models five parts of the kernel and proves what they promise. Loops and
updates in place are methods over arrays and fields, each tied to a mathematical
picture; the properties are lemmas about that picture.

- **Kernel heap** (`kernel/mem.c`). The address-sorted free lists, linked through the
  free blocks themselves, represent a binary tree of free, live and split blocks
  (`BuddyTree`, `BuddyHeap`). `BlockLists` and `KernelHeap` relink the lists as the
  source does; `BuddyRun` proves tiling, coalescing, exact refusal, full recovery and
  the counters over all runs, and `HeapOrders` says in numbers which block a request
  gets. Offsets are relative to the start of the arena.
- **FAT16 files** (`kernel/fs/fat16.c`). A flat disk of bytes is seen as a table, root
  slots and data clusters (`FatVolume`), driven sector by sector (`FatDriver`). The
  operations (`FatFiles`, `FatOps`, `FatAppend`) step the volume as the relations of
  `FatSteps` say. A volume is in order when its table and directory make sense and every
  file has a chain of its own that ends, and sound when each chain is also as long as
  the size of its file asks for (`FatContents`). `FatLaws` and `FatRun` prove that a
  volume in order is a map from stored 8.3 names to bytes, over all runs, calls that run
  out of space included; `FatListing` says what the directory listing shows of it.
  `FatLayout` states disk, slots and names byte by byte, apart from the definitions that
  the rest uses. The layout follows the sections "FAT Data Structure" and "FAT Directory Structure" of the
  Microsoft FAT specification.
- **GK language** (`kernel/gk`). `GkLexer` and `GkParser` build the token table and the
  node arena exactly as a grammar on token streams says; `GkPrinter`, `GkRoundTrip`
  and `GkCanon` print trees and parse them back, and `GkText` writes them out as source
  text that lexes and parses back; `GkMachine` evaluates the arena with flags and a flat
  variable array and is proved to follow the outcome semantics of `GkSemantics`;
  `GkLaws`, `GkFalls` and `GkFuel` are laws of that semantics; `GkProgram` joins all of it.
  `GkPrecedence`, `GkMeaning`, `GkComments` and `GkLimits` state what the language guide
  says of operators, statements, comments and limits, apart from the definitions that
  evaluator, parser and lexer share with their specifications.
- **Physical blocks and page tables** (`kernel/mem/pmm.c`, `kernel/mem/vmm.c`).
  `PageFrames` searches and marks a bitmap of 32-bit words; `AddressSpace` keeps the
  two-level tables of 32-bit paging (section 4.3 of the Intel SDM, volume 3A) in blocks
  taken from it, as a map from pages to frames, and `PageBits` says which bit of a word
  means what.
- **Formatted output** (`include/terminal/npf.h`), with width, precision and binary
  conversions on and the alternative form and short lengths off: `FormatStrings` parses
  directives, `NumberFormat` converts integers, against section 7.21.6.1 of ISO C11, and
  `FormatOutput` prints whole format strings; `FormatMeaning` states from the text of a
  directive alone what it prints.

`Basics` holds the arithmetic and the small facts that several of these share.

Where a promise fails in the code, a lemma gives the exact condition under which it
holds, and another one an input that breaks it:

- an arena can merge blocks exactly when its aligned block fits in the region
  (`KmInit`, `KernelArenaMerges`), and without that it recovers only when it is too
  small to be split (`RecoversIff`);
- create does not look whether the name is in use, and a first stored byte 0xE5 hides
  the file (`CreateSoundIff`, `CreateLaw`);
- a rewrite that runs out of space has already overwritten its file, but no other, and
  leaves it with a piece of the new content (`WriteFailedKeepsOthers`,
  `WriteFailedOverwrites`, `WriteFailedLeaves`);
- the count of an in-place write is wrong when offset plus length passes 2^32 and the
  last cluster has room left (`WrittenIff`);
- a function that ends without return gives the value of the last statement run, where
  `custom_language/syntax_guide.md` promises `None` (`EndsWithLast`): the promise is kept
  by bodies whose last statement gives `None` (`PromiseKept`), broken by those whose last
  statement gives a value (`PromiseBroken`), and for straight-line bodies kept exactly by
  the first kind (`PromiseIff`); the smallest body that breaks it is one literal
  (`FallsOffTheEnd`);
- the guide calls everything but 0, False and the empty string truthy, and allows print
  one argument; in the code None is falsy too, and print takes any number (`UnaryMeans`,
  `PrintMeans`);
- a blank line adds no token when it holds spaces and then tabs, but a tab with a space
  after it makes it count (`BlankLineIgnored`, `BlankLineThatCounts`);
- `SET_FRAME` cannot clear bit 31 of an entry (`SetFrameIff`, `HighBitStays`), mapping
  never clears an attribute, and a page mapped when no block is left for its table
  spoils the tables (`MapPage`);
- the physical allocator refuses when exactly the blocks asked for are left
  (`AllocBlocks`, `LastBlockRefused`);
- for binary conversions a precision does not switch off the 0 flag, and a negative
  precision in a format still asks for digits (`StandardIff`);
- append cuts long contents (`JoinedIff`), loses its file when the clusters that are free
  besides those of the file do not suffice (`AppendIff`, `AppendLaw`), and finds a file by
  its shown name but deletes by the stored one (`OwnFileIff`, `OtherSpelling`).

## Model

| member | source | states |
|---|---|---|
| `KernelHeap.PickOrder` | kernel/mem.c:258-260 | The order chosen for an arena is the largest one, at most 20, whose block fits in the region. |
| `KernelHeap.KmInit` | kernel/mem.c:254-285 | The arena starts as one free block of the chosen order at the first aligned address, and it is able to merge blocks exactly when that aligned block lies wholly inside the region given. |
| `KernelHeap.Allocator.Publish` | kernel/mem.c:278-284 | A fresh arena satisfies the representation invariant (chained lists, headers, sizes) and stands for a single free block. |
| `KernelHeap.KernelArenaMerges` | kernel/mem.c:379-383 | The kernel arena of one megabyte gets order 20, and it merges exactly when the kernel image ends on a megabyte boundary. |
| `KernelHeap.SizeToOrder` | kernel/mem.c:214-222 | The doubling loop stops, and finds the smallest order from 5 up whose block holds the request. |
| `BuddyRun.RequestFitsIff` | kernel/mem.c:291-295 | For every request on which the order search stops, the block picked holds header and payload exactly when the request is at most 0x7FFFFFF4, that is, when rounding up did not wrap around. |
| `HeapOrders.OrderMeans` | kernel/mem.c:214-222 | A request that does not wrap around gets the smallest order from 5 up whose block holds ten bytes of header and the request rounded up to a multiple of 4. |
| `HeapOrders.LargestOrder` | kernel/mem.c:300-303 | A request that needs an order above 20 is refused by every arena; 2^20 bytes are a mebibyte. |
| `KernelHeap.Allocator.InsertBlock` | kernel/mem.c:244-252 | Linking a block into its list puts it at its place in address order and leaves every other list, and every word that is neither the block nor a listed one, alone. |
| `KernelHeap.Allocator.RemoveBlock` | kernel/mem.c:232-242 | Unlinking reports whether the block was on the list, removes exactly that element, and otherwise changes no word. |
| `KernelHeap.Allocator.CarveBlock` | kernel/mem.c:315-323 | The splitting loop publishes exactly one upper half per order between the request and the block found, each at its place in address order. |
| `KernelHeap.Allocator.Alloc` | kernel/mem.c:291-331 | An allocation steps the arena exactly as the tree does: lowest fitting block of the smallest fitting order, carved down, counters bumped even when refused, result just past the header; lists, links and headers again represent the tree. |
| `KernelHeap.FlipBit` | kernel/mem.c:353 | Flipping the size bit of an aligned offset gives the other half of its pair. |
| `Powers.XorIsBuddy` | kernel/mem.c:353 | The exclusive or of an aligned offset and its size, bit by bit, is the offset of the neighbour that together with it forms the next larger aligned block. |
| `KernelHeap.Allocator.MergeOnce` | kernel/mem.c:351-368 | One turn of the coalescing loop either finds no listed buddy inside the arena and changes nothing, or leaves an arena whose full release is the same as before. |
| `KernelHeap.Allocator.Coalesce` | kernel/mem.c:351-368 | The coalescing loop ends with a floating block whose plain publication is the full recursive release of the block it started from. |
| `KernelHeap.Allocator.FreeBlock` | kernel/mem.c:333-375 | Freeing NULL or a block whose magic is gone changes nothing; otherwise the arena steps exactly as the tree releases the block, all other headers survive, and the magic is cleared, so that a second free is harmless. |
| `BuddyTree.Decompose` | kernel/mem.c:244-252 | Any block splits each address-sorted free list into the part below it, its own part and the part above it. |
| `BuddyTree.MergeStep` | kernel/mem.c:351-368 | Taking a free buddy and going on one order higher releases the same blocks as releasing at the lower order. |
| `BuddyTree.ReleaseStops` | kernel/mem.c:361-362 | When the buddy is not free, releasing a block is just publishing it. |
| `BuddyTree.ListedIsFree` | kernel/mem.c:312-313 | Whatever a free list names is a free block of the order of that list. |
| `BuddyLaws.BytesConserved` | kernel/mem.c:254-375 | Listed bytes of all orders plus live bytes equal the size of the arena. |
| `BuddyLaws.NoBuddyPair` | kernel/mem.c:349-374 | In a merged arena a block and its buddy are never both on the free list of one order. |
| `BuddyLaws.RangeInBlock` | kernel/mem.c:349-374 | In a merged arena every aligned range that is wholly free lies inside one free block. |
| `BuddyLaws.FailsOnlyWhenFull` | kernel/mem.c:305-310 | Allocation of an order fails if and only if no aligned range of that size is wholly free. |
| `BuddyLaws.AllocThenFree` | kernel/mem.c:291-375 | Releasing what was just allocated gives back the same tree, hence every free list in the same order. |
| `BuddyRun.ReachableTiling` | kernel/mem.c:254-375 | After any sequence of allocations and frees, merging or not, the blocks cover every byte, are aligned to their size, never overlap, and listed and live bytes add up to the arena. |
| `BuddyRun.ReachableCoalesced` | kernel/mem.c:312-374 | After any run of a merging arena every free list is strictly increasing and holds no block together with its buddy. |
| `BuddyRun.ReachableRefusal` | kernel/mem.c:291-310 | After any run of a merging arena a request is refused if and only if no aligned range of its order is wholly free. |
| `BuddyRun.ReachableRoomy` | kernel/mem.c:291-330 | After any run of requests that do not wrap around every live block has room for its header and its payload. |
| `BuddyRun.AllocFreeRestores` | kernel/mem.c:291-375 | From any reachable state a granted request followed by its release restores the arena, list order included, and both usage counters. |
| `BuddyRun.AllocAddsOne` | kernel/mem.c:291-331 | A granted request adds exactly one live block, of the order and with the payload asked for, and keeps every other live block as it was; a refused one changes nothing. |
| `BuddyRun.FreeRemovesOne` | kernel/mem.c:333-375 | A release takes away exactly the live block at that address and keeps every other one as it was. |
| `BuddyRun.FreeAllRestores` | kernel/mem.c:333-375 | Releasing all live blocks of a merging arena, in any order and even more than once, leaves exactly the one block published at the start. |
| `BuddyRun.CountersAccount` | kernel/mem.c:287-300 | After any run the usage counters equal the live bytes and payloads plus what refused requests added, modulo 2^32. |
| `BuddyRun.WithoutMergingNothingRecovers` | kernel/mem.c:355-356 | In an arena whose size was truncated to zero one small request and its release lose the large block for good. |
| `BuddyRun.RecoversIff` | kernel/mem.c:254-285 | An arena returns to its single block after every run that leaves nothing live if and only if it merges, or its order is at most 5 so that its block is never split. |
| `FatVolume.EntryWritten` | kernel/fs/fat16.c:212-228 | Writing the two bytes of an entry in every copy changes that entry of the table and nothing else on the volume, and the copies stay equal. |
| `FatVolume.ClusterWritten` | kernel/fs/fat16.c:288-292 | Writing inside one data cluster changes that cluster and nothing else. |
| `FatVolume.SlotWritten` | kernel/fs/fat16.c:387-398 | Writing the root directory back with one slot changed changes that slot and nothing else. |
| `FatLayout.GeometryMeans` | kernel/fs/fat16.c:64-79 | The volumes that the model is about, in numbers: one or two copies of the table, then the root directory, then at most 65525 clusters. |
| `FatLayout.TableOnDisk` | kernel/fs/fat16.c:121-131 | Entry c of the table is the two bytes at 2c of the sectors of the first copy, low byte first, and the same two of the second copy when there is one. |
| `FatLayout.SlotOnDisk` | kernel/fs/fat16.c:387-398 | The slots of the root directory are the 32-byte records that follow the copies of the table. |
| `FatLayout.ClusterOnDisk` | kernel/fs/fat16.c:117-119 | The data clusters follow the root directory, the first of them has number 2, and each takes its sectors in order. |
| `FatDriver.Fat16.NextCluster` | kernel/fs/fat16.c:121-131 | The link read is the entry of the table for that cluster, across sector boundaries. |
| `FatDriver.Fat16.WriteFat` | kernel/fs/fat16.c:212-228 | The table gets the value at that cluster, in both copies, and nothing else changes. |
| `FatDriver.Fat16.AllocCluster` | kernel/fs/fat16.c:230-253 | The lowest free cluster from 2 up becomes the end of a chain; 0 is returned exactly when there is none, and then nothing changes. |
| `FatDriver.Fat16.CopyOut` | kernel/fs/fat16.c:184-199 | The sector loop of a read gives exactly the asked bytes of the cluster. |
| `FatDriver.Fat16.CopyIn` | kernel/fs/fat16.c:281-296 | The sector loop of a write splices the bytes into the cluster and changes nothing else. |
| `FatDriver.Fat16.FillCluster` | kernel/fs/fat16.c:375-384 | The sector loop of create and write gives a cluster the next stretch of content, then zeros. |
| `FatChains.ChainUnique` | kernel/fs/fat16.c:121-131 | Table and first cluster determine the chain. |
| `FatChains.ChainAcyclic` | kernel/fs/fat16.c:161-167 | A chain that ends visits no cluster twice. |
| `FatChains.FilledReads` | kernel/fs/fat16.c:363-385 | A chain filled cluster by cluster reads back as the content. |
| `FatChains.LinkedKeepsChain` | kernel/fs/fat16.c:363-369 | Growing a new chain keeps every existing chain and shares no cluster with it. |
| `FatChains.LinkedCount` | kernel/fs/fat16.c:363-369 | Growing a chain uses up exactly its clusters from the free count. |
| `FatNames.EncodeName` | kernel/fs/fat16.c:305-331 | The stored name is the part before the last dot and the part after it, in upper case, cut and padded with spaces to 8 and 3 bytes. |
| `FatNames.FormatName` | kernel/fs/fat16.c:91-113 | The shown name is the first field up to its first space and, when the second field is not blank, a dot and that field up to its first space. |
| `FatNames.ShownIffFits` | kernel/fs/fat16.c:91-113 | Storing a name and showing it gives the name in upper case if and only if it fits the 8.3 form. |
| `FatLayout.DottedStored` | kernel/fs/fat16.c:305-331 | A name with a dot is stored as eight bytes of what stands before its last dot and three of what stands after it, lower-case letters as capitals, cut or padded with spaces. |
| `FatLayout.PlainStored` | kernel/fs/fat16.c:305-331 | A name without a dot is stored as eight bytes of it and three spaces. |
| `FatDirectory.NewSlotFields` | kernel/fs/fat16.c:387-395 | The slot written for a new file decodes to its name, first cluster and size, and is neither volume label nor directory. |
| `FatDirectory.RewrittenSlotFields` | kernel/fs/fat16.c:483-487 | The slot of a rewritten file keeps name and attributes and decodes to the new first cluster and size. |
| `FatDirectory.FindFileIs` | kernel/fs/fat16.c:422-437 | In a sound directory the search finds the slot that holds the name. |
| `FatDirectory.FindFileNone` | kernel/fs/fat16.c:422-442 | The search of a rewrite finds nothing if and only if no file has the name. |
| `FatDirectory.FindNamedNone` | kernel/fs/fat16.c:673-690 | The search of delete finds nothing if and only if neither a file nor a directory has the name. |
| `FatLayout.RewriteFinds` | kernel/fs/fat16.c:422-437 | By the attribute byte alone: the search of a rewrite stops at the first slot of the name, before the end mark, in use, in which bit 3 and bit 4 are clear; a directory is never found. |
| `FatLayout.DeleteFinds` | kernel/fs/fat16.c:673-690 | By the attribute byte alone: the search of delete stops at the first slot of the name, before the end mark, in use, in which bit 3 is clear. |
| `FatLayout.CreateTakes` | kernel/fs/fat16.c:344-354 | A new file takes the first slot whose first byte is 0 or 0xE5. |
| `FatLayout.NewSlotBytes` | kernel/fs/fat16.c:387-395 | The slot written for a new file, byte by byte: name, archive attribute, the fixed date twice, zeros, first cluster and size with the low bytes first. |
| `FatLayout.RewrittenSlotBytes` | kernel/fs/fat16.c:483-487 | The slot of a rewritten file keeps its first 22 bytes and gets time zero, the fixed date, first cluster and size. |
| `FatFiles.FileRead` | kernel/fs/fat16.c:133-210 | A read returns the slice of the chain at the offset, clipped to the file size and to the end of the chain; 0 past the end of the file, -1 when the chain ends before the offset. |
| `FatFiles.FileWrite` | kernel/fs/fat16.c:255-303 | A write splices the clipped bytes into the chain of the file across sector and cluster boundaries; table, directory and all other clusters stay. |
| `FatFiles.ClippedIsMin` | kernel/fs/fat16.c:266 | The clipping of a write is the minimum of length and room if and only if offset plus length stays below 2^32. |
| `FatFiles.ClippingWraps` | kernel/fs/fat16.c:266 | At offset 1 of a file of 5 bytes a length of 2^32 - 1 is not clipped to 4. |
| `FatFiles.GrowChain` | kernel/fs/fat16.c:361-385 | The allocation loop links and fills the lowest free clusters; it stops early exactly when the disk is full. |
| `FatLayout.ChainMarks` | kernel/fs/fat16.c:361-385 | The clusters a chain takes had entry 0; afterwards each entry is the number of the next cluster, and the last one is 0xFFF8. |
| `FatFiles.FreeChain` | kernel/fs/fat16.c:444-450 | The freeing loop stops for every table whose links stay in the table, cyclic or not; it only ever frees entries, and on a chain frees exactly its clusters. |
| `FatOps.CreateFile` | kernel/fs/fat16.c:333-401 | Create writes the content to a new chain and the slot to the first deleted or end slot, or fails without touching the directory. |
| `FatOps.RewriteFile` | kernel/fs/fat16.c:444-493 | The second half of a rewrite frees the old chain, stores the content in a new one and updates the slot, or fails with the directory unchanged. |
| `FatOps.WriteFile` | kernel/fs/fat16.c:403-494 | Write rewrites the file of that stored name, and creates it when there is none. |
| `FatLayout.WriteLeavesDirectories` | kernel/fs/fat16.c:403-494 | A write leaves every slot in use whose bit 4 is set as it was, even one of the name written. |
| `FatOps.DeleteFile` | kernel/fs/fat16.c:657-691 | Delete marks the slot of the file or directory of that name as deleted and changes nothing else, or fails. |
| `FatOps.GetRootEntries` | kernel/fs/fat16.c:513-605 | The array returned by the two passes over the directory is exactly the listing: the named slots before the end mark, in order. |
| `FatLayout.ListingShows` | kernel/fs/fat16.c:565-599 | By the attribute byte alone: every slot before the end mark that is not deleted is listed as a directory when bit 4 is set and bit 3 clear, as a file with its size and first cluster when both are clear, and not at all when bit 3 is set; the listing is in the order of the slots. |
| `FatOps.ReadListed` | kernel/fs/fat16.c:586-595 | Reading through a listed file whose chain ends gives the slice of its content at any offset and length; -1 says that the offset is inside the size of the file and past its last cluster. |
| `FatOps.WriteListed` | kernel/fs/fat16.c:586-595 | Writing through a listed file steps the volume as an in-place write of that file. |
| `FatLaws.StoredIff` | kernel/fs/fat16.c:361-385 | Storing content succeeds if and only if there are as many free clusters as it needs. |
| `FatLaws.CreateIff` | kernel/fs/fat16.c:345-401 | Create succeeds if and only if a slot and enough clusters are free; either way the free count drops by the clusters taken. |
| `FatLaws.CreateFailed` | kernel/fs/fat16.c:354-365 | A create that fails leaves every file, its content and its chain as they were, and a sound volume sound. |
| `FatLaws.CreateSoundIff` | kernel/fs/fat16.c:345-400 | A successful create keeps the volume in order if and only if the name was not in use or is stored as deleted; then a sound volume stays sound. |
| `FatLaws.CreateAdds` | kernel/fs/fat16.c:333-401 | Creating a new name adds exactly that binding to the files, disturbs no other slot or chain, and keeps a sound volume sound. |
| `FatLaws.CreateHides` | kernel/fs/fat16.c:387-398 | A name whose first stored byte is 0xE5 is stored where no search finds it: the files are unchanged. |
| `FatLaws.CreateLaw` | kernel/fs/fat16.c:333-401 | A successful create binds the name to the content in a volume that stays in order if and only if the name was free and does not start with byte 0xE5. |
| `FatLaws.CreateTwice` | kernel/fs/fat16.c:333-401 | Two successful creates of one free name: after the first the name is bound and the volume in order, after the second it is not. |
| `FatLaws.WriteIff` | kernel/fs/fat16.c:444-466 | A rewrite succeeds if and only if the free clusters and the own clusters of the file suffice; the free count changes by old chain length minus new chain length. |
| `FatLaws.WriteReplaces` | kernel/fs/fat16.c:403-494 | A successful rewrite replaces only the bytes of that file and keeps its slot and all other files; the volume is sound afterwards when all other files were, whatever an earlier failed rewrite has left of this one. |
| `FatLaws.WriteFailedKeepsOthers` | kernel/fs/fat16.c:444-462 | A rewrite that runs out of space keeps every other file. |
| `FatLaws.WriteFailedOverwrites` | kernel/fs/fat16.c:444-481 | A rewrite that runs out of space has reused and overwritten every cluster of the file itself. |
| `FatLaws.WriteFailedLeaves` | kernel/fs/fat16.c:444-481 | A rewrite that runs out of space leaves the volume in order, and its file with the part of the new content that was stored from the old first cluster on, cut at the old size; a file without a cluster stays empty. A sound volume stays sound exactly when the file had no cluster or happens to have as many as its old size asks for. |
| `FatLaws.DeleteLaw` | kernel/fs/fat16.c:657-691 | Delete succeeds if and only if the name is in use, removes exactly that name, and frees no cluster; the volume is sound afterwards when all other files were. |
| `FatLaws.PatchLaw` | kernel/fs/fat16.c:255-303 | An in-place write replaces exactly the bytes that fall inside the file; table, directory and other files stay. |
| `FatLaws.WrittenIff` | kernel/fs/fat16.c:265-302 | The count returned by a write is the number of bytes inside the file if and only if the request ends below 2^32 or the file fills its clusters. |
| `FatRun.StepLaw` | kernel/fs/fat16.c:255-747 | Every create, write, append, in-place write and delete that gives no new file a name in use, whether it succeeds or runs out of space, keeps the volume in order and acts on its files as on a map from names to bytes; it keeps a sound volume sound exactly when it is no rewrite that left its file with too many or too few clusters. |
| `FatRun.RunLaw` | kernel/fs/fat16.c:255-747 | After any sequence of such calls, failing ones included, the volume is in order and its files are what the calls mean on a map. |
| `FatRun.RunSound` | kernel/fs/fat16.c:255-747 | A run without a rewrite that left its file with too many or too few clusters keeps a sound volume sound. |
| `FatListing.IntactChains` | kernel/fs/fat16.c:212-253 | In a volume in order every chain ends, is free of cycles and shares no cluster with another file; in a sound one it has the number of clusters the size asks for. |
| `FatListing.ListedIff` | kernel/fs/fat16.c:565-599 | A file is listed if and only if a slot holds it. |
| `FatListing.BoundIsListed` | kernel/fs/fat16.c:565-599 | Every name bound in the map is listed, as shown, with its size: in a sound volume the length of its content. |
| `FatListing.CreatedIsListed` | kernel/fs/fat16.c:333-401 | A file just created under a name that fits the 8.3 form is listed under that name in upper case with its length. |
| `FatRun.StepLedger` | kernel/fs/fat16.c:255-747 | Per call, free clusters, clusters of files and the clusters the call leaks add up; a failed rewrite leaks those it filled before the old first cluster of its file. |
| `FatRun.RunLedger` | kernel/fs/fat16.c:255-747 | Over any run, free clusters plus clusters of files plus all leaked clusters stay what they were. |
| `FatAppend.MatchNames` | kernel/fs/fat16.c:706-717 | Two C strings match exactly when they are equal up to the case of letters. |
| `FatAppend.ReadOld` | kernel/fs/fat16.c:720-738 | The reading loop, in pieces of 128 bytes, gives the first 4000 bytes of the file found, or all of it when it is shorter. |
| `FatAppend.AppendFile` | kernel/fs/fat16.c:694-747 | Append deletes the first file shown under the name, if any, and creates the name with the kept bytes and the addition, 4096 bytes at most. |
| `FatAppend.AppendLaw` | kernel/fs/fat16.c:694-747 | For every name without NUL: an append that succeeds keeps the volume in order and binds exactly the stored name, to the kept bytes of the file found and the addition, if and only if a file was found or the stored name was free, and it is not stored as deleted; one that fails loses at most the file of that stored name. |
| `FatAppend.AppendIff` | kernel/fs/fat16.c:739-746 | Append succeeds if and only if the new content fits the free clusters, not counting those of the file itself, and a slot is free or the file found has one to give. |
| `FatAppend.JoinedIff` | kernel/fs/fat16.c:722-744 | The new content is the old content followed by the addition if and only if the old has at most 4000 bytes and both together at most 4096. |
| `FatAppend.OwnFileIff` | kernel/fs/fat16.c:706-738 | The slot found by its shown name is the one deleted and replaced if and only if its stored name is the encoding of the name; then the content kept is that of the file itself. |
| `FatAppend.FindsItsFile` | kernel/fs/fat16.c:706-738 | For an 8.3 name that is shown for one stored spelling only, append finds a file exactly when the stored name is bound, and keeps its bytes. |
| `FatAppend.OtherSpelling` | kernel/fs/fat16.c:91-113 | A file stored with a blank inside its name is shown as, and found for, a name it is not stored under. |
| `FatAppend.OtherStored` | kernel/fs/fat16.c:305-331 | That name is stored as other bytes, so that by `OwnFileIff` append deletes and replaces another slot than the one it copied. |
| `FatAppend.CutAtFourThousand` | kernel/fs/fat16.c:722-744 | An old content of 4001 bytes loses its last byte. |
| `GkStrings.IntToStr` | kernel/gk/gk_interp.c:29-38 | The number written backwards and turned round is its decimal text. |
| `GkStrings.ParseIntText` | kernel/gk/gk_interp.c:258-275 | int() of a string accepts exactly an optional minus sign and digits, and gives their value. |
| `GkStrings.ParseUndoesDecimal` | kernel/gk/gk_interp.c:258-275 | int() undoes the conversion of any number to a string. |
| `GkStrings.StrCat` | kernel/gk/gk_interp.c:18-26 | Concatenation appends up to the end of the buffer. |
| `GkStrings.CatFits` | kernel/gk/gk_interp.c:18-26 | Concatenation never leaves the buffer, is a prefix of the full text, and is exact if and only if both parts fit together. |
| `GkFrames.LookupIs` | kernel/gk/gk_interp.c:63-68 | The last entry of a name in the variable array is the binding that a stack of frames, searched from the innermost, gives. |
| `GkFrames.TotalIs` | kernel/gk/gk_interp.c:79 | The variable count of the array is the number of bindings in all frames. |
| `GkFrames.AppendIs` | kernel/gk/gk_interp.c:83-87 | Appending an entry is a new binding in the innermost frame. |
| `GkFrames.UpdateIs` | kernel/gk/gk_interp.c:73-75 | Changing an entry of the current scope is changing the binding in the innermost frame. |
| `GkFrames.PushIs` | kernel/gk/gk_interp.c:378 | Raising the call depth opens an empty frame. |
| `GkFrames.PopIs` | kernel/gk/gk_interp.c:90-95 | Dropping the entries of the deepest scope closes its frame and keeps all others. |
| `GkMachine.Machine.constructor` | kernel/gk/gk_interp.c:417-431 | A fresh state stands for one empty frame. |
| `GkMachine.Machine.FindVar` | kernel/gk/gk_interp.c:63-68 | find_var gives the binding of the innermost frame that has the name. |
| `GkMachine.Machine.SetVar` | kernel/gk/gk_interp.c:70-88 | set_var binds in the innermost frame only, and fails exactly when a new variable would be the 129th. |
| `GkMachine.Machine.PopScope` | kernel/gk/gk_interp.c:90-95 | pop_scope closes exactly the innermost frame and restores scopes that are nondecreasing and at most the call depth. |
| `GkMachine.Machine.Eval` | kernel/gk/gk_interp.c:107-415 | For every tree laid out in the arena, the flag-driven evaluator ends with the value, flags, output and variable array that the outcome semantics gives, or with its error and output; once an error is set it does nothing more. |
| `GkMachine.Machine.EvalBinop` | kernel/gk/gk_interp.c:149-211 | Operators follow the semantics, and/or evaluating the right operand only when needed. |
| `GkMachine.Machine.EvalBlock` | kernel/gk/gk_interp.c:279-287 | A block runs its statements until an error or a flag stops it. |
| `GkMachine.Machine.EvalIf` | kernel/gk/gk_interp.c:289-298 | A conditional runs the branch its condition picks. |
| `GkMachine.Machine.EvalWhile` | kernel/gk/gk_interp.c:300-311 | The while loop consumes break and continue of its own body and passes on return and errors. |
| `GkMachine.Machine.EvalTurns` | kernel/gk/gk_interp.c:329-337 | The counting loop binds its variable before each turn and treats break, continue, return and errors as the semantics does. |
| `GkMachine.Machine.EvalPrint` | kernel/gk/gk_interp.c:213-224 | print puts out its arguments with spaces between and a newline at the end, or what was put out before an error. |
| `GkMachine.Machine.EvalCall` | kernel/gk/gk_interp.c:356-395 | A call runs the first definition of the name in a frame of its own, turns return into the value of the call, and gives the call depth back on every path. |
| `GkMachine.Machine.EvalDef` | kernel/gk/gk_interp.c:340-354 | A definition is recorded with its parameters, at most eight, and its body, or refused when 64 are defined. |
| `GkMeaning.ArithmeticMeans` | kernel/gk/gk_interp.c:193-196 | On integers plus adds, minus subtracts and times multiplies. |
| `GkMeaning.DivisionMeans` | kernel/gk/gk_interp.c:197-202 | Division truncates toward zero and modulo gives the remainder with the sign of the dividend; a zero divisor is an error of its own for each. |
| `GkMeaning.ComparisonMeans` | kernel/gk/gk_interp.c:203-206 | Each of the four order comparisons of integers is its own relation. |
| `GkMeaning.EqualityMeans` | kernel/gk/gk_interp.c:174-186 | == and != compare values of any kinds: equal are values of one kind that are the same, and None equals nothing. |
| `GkMeaning.KindsWanted` | kernel/gk/gk_interp.c:188-191 | Every other operator fails exactly when an operand is no integer, except plus after a string. |
| `GkMeaning.JoinMeans` | kernel/gk/gk_interp.c:166-173 | A string plus any value is the string followed by the text of the value, cut at 255 characters; integers have the text of their decimal digits, with a minus sign when negative. |
| `GkMeaning.LogicMeans` | kernel/gk/gk_interp.c:149-160 | and and or evaluate their right side only when the left one does not decide, and give a boolean. |
| `GkMeaning.UnaryMeans` | kernel/gk/gk_interp.c:136-147 | Unary minus negates integers and refuses other values; not inverts truth: 0, False, the empty string and None are false, and nothing else. |
| `GkMeaning.IfMeans` | kernel/gk/gk_interp.c:289-298 | A conditional runs its first branch exactly when the condition is not 0, False, the empty string or None, otherwise the other branch, if there is one. |
| `GkMeaning.WhileMeans` | kernel/gk/gk_interp.c:300-311 | A while loop ends when its condition is false; otherwise its body runs and then the loop from there, unless the body breaks, returns or fails. |
| `GkMeaning.BlockMeans` | kernel/gk/gk_interp.c:279-287 | A block runs its first statement and then the others where that left off, unless the first one breaks, continues, returns or fails. |
| `GkMeaning.AssignMeans` | kernel/gk/gk_interp.c:129-134 | After an assignment the name has the value, and every other name has the value it had. |
| `GkMeaning.AssignIff` | kernel/gk/gk_interp.c:70-88 | An assignment fails exactly when its name is new in the innermost scope and there are 128 variables. |
| `GkMeaning.PrintMeans` | kernel/gk/gk_interp.c:213-224 | print puts out the texts of its arguments with a space between every two, and a newline, for any number of arguments whose values are settled. |
| `GkMeaning.InputMeans` | kernel/gk/gk_interp.c:226-244 | input() gives the next line typed, or the empty text, and puts out a newline; a prompt is put out before that. |
| `GkMeaning.CastMeans` | kernel/gk/gk_interp.c:246-275 | int() gives integers back, reads exactly the texts of an optional minus sign and at least one digit, with their value, and refuses all else. |
| `GkMeaning.ForMeans` | kernel/gk/gk_interp.c:313-327 | A for loop counts from 0 up to the argument of range, or to the integer it is given. |
| `GkMeaning.TurnMeans` | kernel/gk/gk_interp.c:329-337 | A turn binds the variable to its number and runs the body; the next turn follows unless the body breaks, returns or fails. |
| `GkMeaning.JumpMeans` | kernel/gk/gk_interp.c:397-409 | break, continue and return end a piece of program each in its own way; return without a value gives None. |
| `GkMeaning.NameMeans` | kernel/gk/gk_interp.c:63-68 | A name means its binding in the innermost frame that has one, frames of callers included, and is an error without one. |
| `GkMeaning.ForCounts` | custom_language/syntax_guide.md:431-437 | For every n: a loop over range(n) that prints its variable puts out 0, 1 and so on up to n - 1, one a line. |
| `GkMeaning.CallMeans` | kernel/gk/gk_interp.c:356-395 | For every number of parameters up to eight: a function defined to return its j-th parameter gives, when called, the j-th argument, and changes nothing else. |
| `GkMeaning.ParametersMean` | kernel/gk/gk_interp.c:347-350 | A function has the names that stand in its definition as parameters, the first eight of them at most. |
| `GkMeaning.DefMeans` | kernel/gk/gk_interp.c:340-354 | A definition adds one function to the table and is refused exactly when there are 64. |
| `GkMeaning.DepthMeans` | kernel/gk/gk_interp.c:367-370 | A call is refused when 32 calls are open. |
| `GkLaws.ExprIsPure` | kernel/gk/gk_interp.c:107-415 | No expression, however deep its calls recurse, changes any variable of any frame, and none leaves a control flag set. |
| `GkLaws.CallIsPure` | kernel/gk/gk_interp.c:356-395 | A call changes no variable of its caller. |
| `GkLaws.StmtIsLocal` | kernel/gk/gk_interp.c:70-95 | A statement touches only the innermost frame, loses no variable of it, and ends in break or continue only inside a loop. |
| `GkLaws.FallsOffTheEnd` | kernel/gk/gk_interp.c:386-394 | An input that breaks the promise of the guide: a function whose body is one integer literal gives that integer. |
| `GkFalls.EndsWithLast` | kernel/gk/gk_interp.c:279-287 | For every function, arguments, environment and bound: a call whose body ends without return gives the value of the last statement run, None for an empty body, and one that returns gives what it returns. |
| `GkFalls.PromiseKept` | custom_language/syntax_guide.md:378 | When the body is empty, or its last statement is print or def, or a conditional or loop that ends so, every call that ends without return gives None. |
| `GkFalls.PromiseBroken` | kernel/gk/gk_interp.c:386-394 | When the last statement is a literal, an operator, input, int(), an assignment of such a value, or a two-sided conditional that ends so, no call that ends without return gives None. |
| `GkFalls.WitnessCall` | kernel/gk/gk_interp.c:386-394 | For every straight-line body over integer variables that is not of the first form, a caller is named for which the call ends without return and gives another value than None. |
| `GkFalls.PromiseIff` | custom_language/syntax_guide.md:378 | For straight-line bodies the promise holds in every environment if and only if the body is of the first form. |
| `GkFuel.MoreFuel` | kernel/gk/gk_interp.c:300-311 | One more turn allowed to loops changes no answer that was reached. |
| `GkFuel.FuelIsEnough` | kernel/gk/gk_interp.c:300-311 | An answer reached with some bound on loop turns is reached with every larger bound, so the bound only decides whether there is an answer. |
| `GkPrinter.LevelUndoesShow` | kernel/gk/gk_parser.c:171-269 | Parsing at a level what was printed for that level gives the tree and stops where the printed text ends. |
| `GkPrinter.ExprRoundTrip` | custom_language/syntax_guide.md:200-209 | Every expression printed with parentheses only where precedence and left associativity ask for them parses back to itself. |
| `GkPrecedence.Precedence` | custom_language/syntax_guide.md:200-207 | For every chain of operands and binary operators, of any length: the tree parsed has at its root the last operator of the loosest row of the guide, and its sides are grouped the same way. |
| `GkPrecedence.OneGrouping` | custom_language/syntax_guide.md:200-207 | There is only one such tree. |
| `GkPrecedence.TwoOperators` | kernel/gk/gk_parser.c:171-268 | For any two operators between three literals or names, the first is applied first when it stands in the same row as the second or a tighter one, and otherwise the second. |
| `GkPrecedence.SignedIsOperand` | kernel/gk/gk_parser.c:144-168 | Unary minus and not with their operand are an operand of every binary operator: they bind tightest. |
| `GkPrecedence.ParensAreOperand` | kernel/gk/gk_parser.c:132-141 | Any expression in parentheses is an operand. |
| `GkPrecedence.NoOtherPrefix` | kernel/gk/gk_parser.c:144-168 | No other operator starts an expression. |
| `GkRoundTrip.StmtUndone` | kernel/gk/gk_parser.c:297-467 | Every statement, however nested, comes back from the tokens it is printed as. |
| `GkRoundTrip.ProgramRoundTrip` | kernel/gk/gk_parser.c:469-488 | Every program comes back from the tokens it is printed as. |
| `GkCanon.CanonIff` | kernel/gk/gk_parser.c:469-488 | The trees that some token stream parses to are exactly the canonical ones, those that can be printed. |
| `GkCanon.Reprinted` | kernel/gk/gk_parser.c:469-488 | Printing any parsed program and parsing it again gives the same program, however its first text was laid out. |
| `GkCanon.RunsIff` | kernel/gk/gk_interp.c:408-409 | For a parsed program the evaluator is covered by the outcome semantics exactly when break and continue occur only inside loops of the same function body. |
| `GkArena.OneParent` | kernel/gk/gk_parser.c:9-23 | In the arena every node but the root is a child of exactly one node, once, and the root of none: the nodes form one tree. |
| `GkArena.LaidIsRep` | kernel/gk/gk_parser.c:9-23 | The laid-out nodes represent the tree through valid child indices. |
| `GkParser.Parser.NewNode` | kernel/gk/gk_parser.c:9-23 | A node is appended at the next index, or refused when 2048 are in use. |
| `GkParser.Parser.Advance` | kernel/gk/gk_parser.c:28-32 | The position moves one token on and never past the end-of-file token. |
| `GkParser.Parser.ParsePrimary` | kernel/gk/gk_parser.c:55-142 | Literals, names, calls and parentheses build exactly the nodes of the grammar tree, or fail exactly when there is none or it does not fit. |
| `GkParser.Parser.ParseUnary` | kernel/gk/gk_parser.c:144-169 | Unary operators build exactly the nodes of the grammar tree after their operand. |
| `GkParser.Parser.ParseLevel` | kernel/gk/gk_parser.c:171-269 | The five binary levels build left-associated nodes exactly as the grammar says. |
| `GkParser.Parser.ParseBlock` | kernel/gk/gk_parser.c:275-295 | An indented block builds exactly its grammar tree, with at most 64 statements. |
| `GkLimits.StatementLimit` | custom_language/syntax_guide.md:473 | A block or program takes 64 statements and no 65th. |
| `GkLimits.ArgumentLimit` | kernel/gk/gk_parser.c:108-124 | A call takes 64 arguments and no 65th. |
| `GkParser.Parser.ParseStmt` | kernel/gk/gk_parser.c:297-467 | Every kind of statement builds exactly its grammar tree, or fails exactly when there is none or it does not fit. |
| `GkParser.Parser.Parse` | kernel/gk/gk_parser.c:469-488 | gk_parse stops on every token stream, and succeeds exactly when the grammar gives a program of at most 2048 nodes; the arena then is that tree, root at index 0. |
| `GkGrammar.Stmt` | kernel/gk/gk_parser.c:297-467 | Every statement reads at least one token and stays within the stream up to its end-of-file token. |
| `GkLexer.Lexer.Emit` | kernel/gk/gk_lexer.c:43-54 | A token is stored while the table has room; the count of all tokens produced goes on. |
| `GkLexer.LinesNested` | kernel/gk/gk_lexer.c:79-203 | From any strictly increasing stack of indentations the rest of a source closes as many blocks as are open, never more at any point. |
| `GkLexer.SourceNested` | kernel/gk/gk_lexer.c:68-205 | The tokens of every accepted source open and close blocks properly and end with the only end-of-file token. |
| `GkLexer.Lexer.Indentation` | kernel/gk/gk_lexer.c:90-98 | A line opens a block, or closes exactly the blocks deeper than it, and the stack stays strictly increasing from 0. |
| `GkLexer.Lexer.Lex` | kernel/gk/gk_lexer.c:68-205 | gk_lex accepts exactly the sources whose tokens all fit, and then holds exactly those tokens: none is dropped although operators are emitted without a check. |
| `GkText.TokenPiece` | kernel/gk/gk_lexer.c:101-203 | The text of every token, followed by a space, is read back as that token and no further. |
| `GkText.TextLexed` | kernel/gk/gk_lexer.c:68-205 | Every token stream laid out in indented lines comes back from its text. |
| `GkText.SourceRoundTrip` | kernel/gk/gk_lexer.c:68-205 | The source text of a program, its blocks indented, is lexed to the tokens of the program, and these parse back to it. |
| `GkComments.CommentsIgnored` | kernel/gk/gk_lexer.c:105-108 | For every source text: its tokens are those of the text without its comments, where everything from a # outside string literals up to the end of the line is left out. |
| `GkComments.EitherQuote` | custom_language/syntax_guide.md:107-112 | A string literal may stand in single or in double quotes, and reads as the text between them. |
| `GkComments.QuotesAlike` | kernel/gk/gk_lexer.c:120-147 | Escapes included, a literal without quotes inside reads the same in either kind of quotes. |
| `GkComments.BlankLineIgnored` | kernel/gk/gk_lexer.c:81-85 | A line of spaces, and tabs after them, adds no token, wherever it stands. |
| `GkComments.BlankLineThatCounts` | kernel/gk/gk_lexer.c:78-85 | A line of a tab with a space after it does count: it opens a block. |
| `GkComments.TabsAreSpaces` | custom_language/syntax_guide.md:45 | A tab in front of a line stands for four spaces. |
| `GkComments.BlanksIgnored` | kernel/gk/gk_lexer.c:103 | Spaces and tabs inside a line add no token. |
| `GkLimits.DigitEndsLongWord` | kernel/gk/gk_lexer.c:150-157 | In a word of 63 or more letters the next digit is not taken, while letters are. |
| `GkProgram.Run` | kernel/gk/gk_interp.c:436-469 | From source text to output: the run fails on texts that are no program or do not fit, and otherwise puts out what the program means and fails exactly when it ends in an error. |
| `GkProgram.WrittenCompiles` | kernel/gk/gk_interp.c:436-469 | The text written for a program compiles, and to that program, exactly when its tokens and nodes fit the tables. |
| `GkLimits.ProgramLimits` | custom_language/syntax_guide.md:465-466 | In numbers: the text of a program compiles exactly when it has at most 2048 tokens and 2048 nodes. |
| `PageFrames.Manager.SetBlock` | kernel/mem/pmm.c:16-18 | One block becomes used and no other bit of the bitmap changes. |
| `PageFrames.Manager.UnsetBlock` | kernel/mem/pmm.c:20-22 | One block becomes free and no other bit of the bitmap changes. |
| `PageFrames.Manager.WindowFree` | kernel/mem/pmm.c:32-42 | The counting loop, which goes on into the next word, tells exactly whether the run is free. |
| `PageFrames.Manager.FindFreeBlocks` | kernel/mem/pmm.c:24-48 | The result is the lowest start of a free run of the asked length, or -1 exactly when none exists or none is asked for. |
| `PageFrames.Manager.AllocBlocks` | kernel/mem/pmm.c:82-92 | Allocation takes the lowest free run and marks exactly it; it refuses if and only if no block is asked for, no such run exists, or the counter leaves no more than the asked blocks; used bits and counter keep their difference. |
| `PageFrames.LastBlockRefused` | kernel/mem/pmm.c:82-92 | With one block left, a request for one block is refused although that block is free. |
| `PageFrames.Manager.FreeBlocks` | kernel/mem/pmm.c:93-99 | Freeing clears exactly the run, and counter and bitmap keep their difference if and only if the whole run was in use. |
| `PageFrames.RunCount` | kernel/mem/pmm.c:82-99 | Setting or clearing a run changes the number of used blocks by exactly the blocks whose state changed. |
| `PageFrames.FreeCount` | kernel/mem/pmm.c:93-99 | Clearing a run takes away its full length from the number of used blocks if and only if all of it was in use. |
| `PageFrames.AllocThenFree` | kernel/mem/pmm.c:82-99 | Freeing an allocated run restores the bitmap. |
| `PageTables.SetFrameIff` | include/mem/vmm.h:14 | SET_FRAME leaves the frame asked for if and only if bit 31 of the old entry was clear or is wanted. |
| `PageTables.SetFrameWord` | include/mem/vmm.h:14 | The masks of SET_FRAME on a 32-bit word, bit by bit, set page and flags and keep bit 31, as the record form says. |
| `PageTables.SetAttributeWord` | include/mem/vmm.h:11 | Or-ing attribute bits into a word adds exactly those flags. |
| `PageTables.ClearAttributeWord` | include/mem/vmm.h:12 | Masking out an attribute bit removes exactly that flag. |
| `PageTables.HighBitStays` | include/mem/vmm.h:14 | For every word with bit 31 set and address without it, the frame left is too high by 0x80000. |
| `PageTables.Indices` | include/mem/vmm.h:8-9 | Directory and table index together tell two addresses apart exactly when they lie in different pages. |
| `PageTables.EntryChanged` | kernel/mem/vmm.c:81-84 | Changing one entry of one table changes the entry, and so the translation, of exactly one page, and keeps tables distinct. |
| `PageTables.TableAdded` | kernel/mem/vmm.c:70-76 | A fresh empty table put into the directory changes the entry of no page and keeps tables distinct. |
| `PageTables.PageZero` | kernel/mem/vmm.c:22-31 | A write that lands in page 0 changes the entry of no page. |
| `AddressSpace.Space.AddTable` | kernel/mem/vmm.c:70-76 | A new table comes from the lowest free block and changes no translation; without a block the directory entry is spoilt. |
| `AddressSpace.Space.MapPage` | kernel/mem/vmm.c:62-85 | Mapping changes the entry of that page only: its frame becomes the one asked for if and only if bit 31 of the old entry was clear or is wanted, and its flags are the old ones, those of the address and those given, none cleared; the tables stay sound exactly when a table existed or a block could be had. |
| `AddressSpace.Space.UnmapPage` | kernel/mem/vmm.c:87-92 | Unmapping removes the translation of that page, keeps its other flags, and changes no other entry, whether or not there was a table. |
| `AddressSpace.Space.Init` | kernel/mem/vmm.c:94-160 | After a successful initialisation the first 4 MiB translate to themselves, the 4 MiB at 3 GiB to the frames of the kernel, and nothing else translates. |
| `AddressSpace.InitialTables` | kernel/mem/vmm.c:119-151 | The directory and the two filled tables are sound and give exactly the initial translations. |
| `PageBits.PresentBit` | include/mem/vmm.h:26 | The lowest bit of a word says that the entry is present. |
| `PageBits.AbsentWord` | kernel/mem/vmm.c:102-103 | An empty entry of the directory is the word with bit 1 alone. |
| `PageBits.MappedWord` | kernel/mem/vmm.c:120-151 | An entry in use after initialisation is the word with bits 0 and 1 and the frame in its upper twenty bits. |
| `PageBits.FrameWord` | include/mem/vmm.h:10 | The frame of an entry is the number in the upper twenty bits of its word. |
| `PageBits.AddressBits` | include/mem/vmm.h:8-9 | The upper ten bits of an address choose the entry of the directory, and the next ten that of the table. |
| `PageBits.KernelAddresses` | kernel/mem/vmm.c:132-146 | The 4 MiB at 3 GiB lead to the physical addresses from 64 KiB on. |
| `NumberFormat.UtoaRev` | include/terminal/npf.h:570-580 | The digits come out lowest first and, turned round, are the numeral of the value. |
| `NumberFormat.BinLen` | include/terminal/npf.h:884-919 | The length is the number of binary digits, one for 0. |
| `NumberFormat.NumeralWorth` | include/terminal/npf.h:570-580 | The digits of a numeral are worth its value in every base from 2 to 16. |
| `NumberFormat.NumeralLeads` | include/terminal/npf.h:570-580 | A numeral starts with a zero digit if and only if its value is 0. |
| `NumberFormat.BodyWorth` | include/terminal/npf.h:1257 | Precision zeros and digits are worth the magnitude of the argument, and are as many as precision and digits ask for. |
| `NumberFormat.PlacedWidth` | include/terminal/npf.h:1261-1268 | The field is exactly as wide as asked for, or as its contents need. |
| `NumberFormat.Output.Convert` | include/terminal/npf.h:1007-1312 | One integer conversion puts out padding, sign, precision zeros and digits in the order of the field, and counts every character. |
| `NumberFormat.StandardIff` | include/terminal/npf.h:1001-1022 | For every specification that parsing gives, the engine prints what section 7.21.6.1 of ISO C11 asks for, except exactly when a binary conversion with the 0 flag has a precision and room to fill, or when a negative precision in the format still asks for more digits than there are. |
| `NumberFormat.ZerosWhereSpacesAreDue` | include/terminal/npf.h:1007-1022 | Width 5, precision 3 and the 0 flag print the binary 1 as 00001, where the standard asks for two spaces and 001. |
| `NumberFormat.ZerosForNegativePrecision` | include/terminal/npf.h:1001-1022 | A precision of minus 3 in the format prints 5 as 005, where the standard asks for 5. |
| `FormatMeaning.IntegerPrints` | include/terminal/npf.h:1001-1313 | For every integer directive with any flags, width and precision, and every argument: spaces, sign, zeros, digits and spaces, as many of each as the text of the directive asks for; the sign is a minus exactly before negative numbers under d and i, and the digits are the magnitude, or the argument modulo 2^32, in the base and the case of the letter. |
| `FormatMeaning.BarePrints` | include/terminal/npf.h:1066-1137 | Without flags, width and precision: a minus exactly before negative numbers under d and i, and the digits without needless zeros. |
| `FormatMeaning.StringPrints` | include/terminal/npf.h:1051-1060 | s prints its string up to the precision, in a field of the width, on the side that the flags ask for. |
| `FormatMeaning.CharacterPrints` | include/terminal/npf.h:1046-1049 | c prints the character whose number is the argument modulo 256. |
| `NumberFormat.Store` | include/terminal/npf.h:922-939 | The buffer gets the longest prefix that fits and a terminator, and the count is that of the whole output. |
| `FormatStrings.ScanIff` | include/terminal/npf.h:405-568 | The parser finds a directive of a given length at the start of a text if and only if that text is one: flags in any order and number, a width, a precision, a length and a conversion letter. |
| `FormatStrings.PrefixFree` | include/terminal/npf.h:405-568 | No directive is the start of another one, so that a directive is read the same whatever follows it. |
| `FormatStrings.ParseFlags` | include/terminal/npf.h:418-432 | The flag loop sets left and zero when their flags occur at all, and plus wins over space in any order. |
| `FormatStrings.ParseDirective` | include/terminal/npf.h:405-568 | The parser returns the directive at the start of its text and where it ends, or reports that there is none. |
| `FormatOutput.FillStars` | include/terminal/npf.h:962-977 | It succeeds exactly when the arguments start with one number per star, and takes just those, width first: the width is the magnitude of its argument and justifies to the left when that is negative, a precision counts exactly when its argument is not negative, and nothing else of the directive changes. |
| `FormatOutput.TextLength` | include/terminal/npf.h:1051-1060 | The length loop gives the string up to its precision. |
| `FormatOutput.PutBoxed` | include/terminal/npf.h:1229-1312 | Text is put into its field with padding on the side the flags ask for. |
| `FormatOutput.Print` | include/terminal/npf.h:949-1316 | For every format string whose directives suit the arguments, the output is the text as it stands with every directive replaced by its field, in order, and every character is counted. |
| `FormatOutput.PrintToBuffer` | include/terminal/npf.h:1322-1343 | The buffer gets the longest prefix of the formatted text that fits and a terminator; the result is the full length. |
| `FormatOutput.PlainText` | include/terminal/npf.h:957-959 | Text without a percent sign prints as it stands. |
| `FormatOutput.EscapedPrints` | include/terminal/npf.h:1041-1044 | Every text prints as itself once its percent signs are doubled. |
| `FormatOutput.RenderedConcat` | include/terminal/npf.h:957-1313 | A complete format prints its text, and then whatever follows it prints with the remaining arguments. |

## Left out

- `kernel/mem.c`: `malloc_align`, `free_align`, `realloc`, and the clearing of memory in `malloc`, which also writes through NULL after a refusal.
- KernelHeap.KmInit: regions of 0 bytes, for which the source shifts by a negative order. The branch of lines 269-273 cannot be taken for other regions and is kept as it is.
- KernelHeap.Allocator.Alloc: only requests for which the order search stops (at most 2^31 bytes with the header); for larger ones the source doubles to 0 and never ends.
- KernelHeap.Allocator.FreeBlock: a pointer inside the arena whose magic is intact has to be that of a live block; other bytes that happen to hold the magic are not modelled.
- FatDriver.Fat16.WriteFat: drive reads and writes always succeed, as does the allocation of buffers; sectors have 512 bytes, and there are one or two copies of the table.
- FatOps.CreateFile: contents are at most 2^32 minus one cluster long, so that the rounding up to clusters does not wrap around; the table has no free entry past the last cluster.
- FatLaws.CreateAdds: names are C strings of bytes, and the length stored is below 2^32.
- FatRun.RunLaw: new files get names that are C strings, are not in use and are not stored as deleted; `CreateLaw`, `CreateHides`, `CreateTwice` and `AppendLaw` state what happens otherwise. Clusters that deletes and failed calls leak stay leaked, and `RunLedger` accounts for them.
- FatFiles.FreeChain: a link that leads outside the table, for which the source reads and writes past the table, is excluded.
- FatAppend.AppendLaw: names are C strings.
- FatFiles.FileRead: the chain of the file read has to end; one that runs into a free or reserved entry, or outside the table, is not modelled.
- FatFiles.FileWrite: likewise, the chain of the file written has to end.
- FatOps.RewriteFile: the chain of the file rewritten has to end and its size to be at most 65536 clusters; no link of the table leads outside it, and no entry past the last cluster is free. The other files may be anything.
- FatOps.WriteFile: likewise for the table, and for the file of that name, when there is one.
- FatOps.ReadListed: the chain of the file read has to end and its size to be at most 65536 clusters, beyond which the 16-bit cluster index of the driver wraps around. The other files may be anything.
- FatOps.WriteListed: likewise for the file written.
- FatAppend.ReadOld: likewise for the file read.
- FatAppend.AppendFile: likewise for the files shown under the name; end marks come last in the directory, and no entry past the last cluster of the table is free.
- `kernel/fs/fat16.c`: `fat16_mkdir` (scales its slot index twice), `fat16_drive_open` and the reading of the boot sector, `fat16_print_info`.
- GkMachine.Machine.Eval: numbers are unbounded, so overflow of 32-bit arithmetic is not modelled; strings hold no NUL; error texts are cases of a datatype; loops have a bound on their turns, and running out of it is one more error, which `FuelIsEnough` shows to change no answer.
- GkFalls.PromiseIff: the converse of `PromiseKept` is proved for straight-line bodies over integer variables. Other bodies, whose last value may hang on calls and loops, are covered by `EndsWithLast`, `PromiseKept` and `PromiseBroken`.
- GkMachine.Machine.EvalTurns: the state after an error is described by the error and the output only, since the array of variables may then keep entries of a scope that was left.
- GkProgram.Run: names of 64 and more characters, which the source copies into fields of 64 bytes without a check; programs with break or continue outside a loop of the same function body, the diagnostics printed on failure, and a state that is not fresh; lines for input() come from a list.
- GkLexer.Lexer.Lex: words of more than 63 letters, for which the source overruns its buffer of 64 bytes (the bound guards only digits) and the model reads on; line numbers, more than 63 nested indentations (the source does not guard its stack of 64), and wrap-around of number literals.
- GkParser.Parser.Parse: error texts are one flag; child lists are sequences, so a `def` with more than 63 parameters, for which the source writes past its table, is not modelled.
- GkText.SourceRoundTrip: identifiers have at most 63 characters and are no keywords, string literals at most 255 characters, integer literals are not negative, and no block inside the program is empty, since none of these others has a text; one text is written for each program.
- PageFrames.Manager.FindFreeBlocks: requests of more than 32 blocks, fewer than 1024 blocks, and a word after the bitmap that is not all ones, for which the source's window leaves its two words.
- PageFrames.Manager.FreeBlocks: `pmm_init`, `pmm_map_region` and `pmm_unmap_region`, which fill the bitmap from a memory map, are not modelled; the counter never passes the number of blocks.
- PageFrames.Manager.AllocBlocks: the same bounds on requests and memory as for the search.
- PageFrames.Manager.WindowFree: the same bounds.
- AddressSpace.Space.MapPage: tables are reached at their physical address whatever it is; after paging is on, the source reaches only those in the 4 MiB that are mapped to themselves. An entry is bit 31, a frame and a set of flags; control registers, the TLB, `alloc_page`, `free_page` and page faults are not modelled.
- NumberFormat.Output.Convert: signed arguments are integers of any size, unsigned ones are taken modulo 2^32 by its caller; widths and precisions do not overflow.
- FormatOutput.PrintToBuffer: the same formats and arguments as for `Print`.
- FormatOutput.Print: pointer and floating-point directives and null strings are not modelled, and the arguments have to suit the directives.
- Device drivers, boot code, terminal, editor, commands and users: hardware access and user interface.
