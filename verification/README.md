# A verified model of xv6

This project models six parts of the xv6 teaching kernel, its user programs and its
image builder, and proves what they rely on and what they promise. `Prelude` holds the few
definitions that they share.

**The file system** (`Bytes`, `Layout`, `Ownership`, `FileSystem`, `TagBlock`, `Tags`,
`FileRuns`, `Strings`, `Directory`, `Mkfs`, `SystemRuns`). The disk is a sequence of 512-byte blocks with a real
bitmap (bits in bytes) and real indirect blocks (little-endian words). One invariant
carries everything: every block in use has exactly one owner (a data slot, the indirect
slot or the tag slot of one inode), it is marked, and every unmarked block is all zeros.
The code relies on the zeros and never says so: fresh indirect blocks list nothing, fresh
tag blocks hold no tags, and the entries that `dirlookup` meets past the end of a
directory are empty. On top of the invariant, every run of `writei`, `readi`, `itrunc` and
the four tag calls is shown to do what the same run does to flat byte sequences and finite
maps, a directory is shown to be a finite map, and an image made by `mkfs` is shown to
start in the invariant. `SystemRuns` puts these together: any run that mixes file, tag and
directory calls, from the image on, refines flat files, tag maps and name maps.

**The buffer cache and the disk queue** (`Bcache`, `BcacheProof`, `BcacheRuns`, `BufRing`,
`IdeQueue`).
Clients, cache, queue and disk form one step system, in which clients sleep in `bget` and
in `iderw` and are woken by `brelse`, by the disk or by being killed. With all its
concurrency it refines a plain disk that is read and written at once. Its ring and queue are sequences;
`BufRing` and `IdeQueue` are the same ring and queue by their pointers, updated in place.

**Processes, pipes and open files** (`Proc`, `ProcProof`, `ProcLaws`, `ProcLoops`, `Pipe`,
`PipeProof`, `PipeBytes`, `FileTable`, `FileTableProof`, `FileTableCalls`). Step systems over any number of processes and
CPUs, with the locks in the state, so that a step is what happens while a lock is held.
`sleep` takes several steps: it drops the pipe lock before the process is asleep.
`ProcLoops` has the table-scanning loops on an array.

**Virtual memory** (`Paging`, `PagingSteps`, `VirtualMemory`, `UserCopy`). Frames hold page
tables or data; every frame outside the free list has one owner.

**The user-level allocator** (`Umalloc`, `UmallocRuns`). Headers in a map from addresses, a
circular free list through them.

**Two language processors**: the shell's parser (`ShellGrammar`, `ShellProof`, `ShellText`,
`Shell`) and the matcher of `grep` (`Grep`). The shell's parser works on characters with a
cursor; it is shown equal to scanning the line first and parsing the tokens after, and that
parser is shown to accept exactly a grammar.

Where a property is false of the code, the code is modelled as it is:

- A reader can be left asleep on a full pipe when a writer is killed
  (`PipeProof.KilledWriterLosesWakeup`). A sleeping reader's pipe is empty if and only if no
  killed writer has left it full since readers were last woken or the pipe was last empty
  (`PipeProof.NoLostWakeup`); without such a writer it always is
  (`PipeProof.NoneKilledNoneLost`).
- `setupkvm` keeps what it took when a later page cannot be had, so a failing `copyuvm` loses
  memory (`VirtualMemory.LeakingCopy`): all free frames if there were fewer than thirteen, and
  none otherwise (`VirtualMemory.Memory.CopyUvm`).
- `balloc` does not compare the block it finds with the size of the disk: on a full disk of
  the default size it hands out block 1024 of 1024 (`Mkfs.FullDisk`), as on every full disk
  smaller than one bitmap block (`Mkfs.PastTheEnd`). The block is on the disk exactly when
  there is a free block (`FileSystem.AllocOnDisk`).
- `add_dir` rounds a directory's size up by a whole block when it already ends on a block
  boundary, past the blocks it has (`Mkfs.FullDirectory`); every byte below the new size
  has a block if and only if it did not end on a boundary (`Mkfs.RoundingOk`).
- `dirlink` keeps sixteen bits of an inode number, so with none of them set it adds no name
  (`Directory.DirLink`).
- `>>` is a token of its own and then treated exactly as `>` (`ShellGrammar.Redirect`): the
  file is opened for writing from its start.
- The comment on `getAllTags` speaks of a writable file; the code asks for a readable one
  (`Tags.GetAllTags`). `getFileTag`, which only reads, asks for a writable one.

A panic is a branch to be shown unreachable, or the condition under which it is reached is a
precondition: a disk or table that is full where the code panics.

## Model

| member | source | states |
|---|---|---|
| `Layout.NoSharing` | xv6/kernel/fs.c:319-380 | two different slots (data, indirect, tag) of any inodes never name the same block; a named block is in the data area and marked |
| `Layout.MarkedIsReferenced` | xv6/kernel/fs.c:53-97 | a data block is unmarked iff it is free; then it is all zeros; a marked one is named by some slot |
| `Layout.InodeFrame` | xv6/kernel/fs.c:319-347 | an inode's block map and bytes do not depend on blocks it does not own |
| `Ownership.StepKeepsInv` | xv6/kernel/fs.c:319-380 | a change confined to one inode's blocks keeps the ownership invariant, and the bytes of all others |
| `Ownership.AllocKeepsBitmap` | xv6/kernel/fs.c:53-76 | marking a free block keeps bitmap and owners in agreement and takes one block from the free set |
| `Ownership.FreeKeepsBitmap` | xv6/kernel/fs.c:79-97 | zeroing and unmarking a block in use keeps them in agreement, and every other block's contents |
| `Ownership.GrowKeepsInv` | xv6/kernel/fs.c:319-347 | adding a block at the end of a file keeps the invariant, all bytes and all tag blocks |
| `Ownership.WriteKeepsInv` | xv6/kernel/fs.c:420-451 | writing inside a file's block keeps the invariant, all other files and all tag blocks |
| `Ownership.TruncateKeepsInv` | xv6/kernel/fs.c:352-380 | taking all data and indirect blocks of one inode away keeps the invariant, all other files and all tag blocks |
| `FileSystem.FirstClear` | xv6/kernel/fs.c:62-71 | the lowest clear bit of a bitmap block, or none |
| `FileSystem.FileSystem.BAlloc` | xv6/kernel/fs.c:53-76 | the lowest clear bit of all whole bitmap blocks is set and no other; failure iff all are set |
| `FileSystem.AllocOnDisk` | xv6/kernel/fs.c:62-71 | the lowest clear bit is below the disk size iff there is a free block, and then it is one |
| `FileSystem.FileSystem.BFree` | xv6/kernel/fs.c:79-97 | a block in use becomes zero and unmarked, exactly one more block is free, "freeing free block" is not reached |
| `FileSystem.FileSystem.TakeBlock` | xv6/kernel/fs.c:53-76 | with a free block, the result is free, zero, below the size; exactly one fewer block is free |
| `FileSystem.FileSystem.BMap` | xv6/kernel/fs.c:319-347 | block bn exists afterwards; it is paid for exactly from the free blocks; no byte of any file changes; nothing changes when it existed |
| `FileSystem.FileSystem.AddDirect` | xv6/kernel/fs.c:325-328 | an empty direct slot at the end of the file gets a fresh zero block, and only that slot's address changes |
| `FileSystem.FileSystem.AddIndirect` | xv6/kernel/fs.c:334-335 | the inode gets an indirect block that lists nothing; no address and no byte changes |
| `FileSystem.FileSystem.AddListed` | xv6/kernel/fs.c:336-342 | an empty entry of the indirect block gets a fresh zero block, and only that slot's address changes |
| `FileSystem.FileSystem.ReadI` | xv6/kernel/fs.c:393-418 | the exact slice of the file clipped to its size, across blocks; -1 iff off is past the size or off+n wraps; the state is unchanged |
| `FileSystem.FileSystem.ReadLoop` | xv6/kernel/fs.c:411-416 | the pieces read block by block make up the slice |
| `FileSystem.FileSystem.WriteI` | xv6/kernel/fs.c:420-451 | the file becomes the old one with min(n, MAXFILE*BSIZE-off) bytes spliced in at off; no other file, no tag block and no kind changes; the free count falls by exactly the new blocks; -1 iff off is past the size or off+n wraps |
| `FileSystem.FileSystem.WriteBlock` | xv6/kernel/fs.c:438-443 | one piece is written in one block, mapped if need be; all other bytes of all files stay |
| `FileSystem.FileSystem.WriteLoop` | xv6/kernel/fs.c:438-444 | the pieces written block by block are the whole write |
| `FileSystem.FileSystem.ITrunc` | xv6/kernel/fs.c:352-380 | the owners left are exactly those not data or indirect of this inode, the free count grows by exactly the file's blocks, other files and all tag blocks are unchanged |
| `FileSystem.FileSystem.FreeDirect` | xv6/kernel/fs.c:359-364 | the direct blocks are free and their addresses cleared; all other blocks in use keep their contents |
| `FileSystem.FileSystem.FreeListed` | xv6/kernel/fs.c:366-376 | the listed blocks and the indirect block are free, and nothing else |
| `FileSystem.FileSystem.IUpdate` | xv6/kernel/fs.c:170-187 | afterwards memory and disk agree on every inode, except for tag blocks, iff before they agreed on all inodes but this one; no other inode on disk changes |
| `TagBlock.SearchKey` | xv6/kernel/fs.c:618-633 | the first slot whose key is the given one; -1 iff there is none or the key is too long |
| `TagBlock.SearchEnd` | xv6/kernel/fs.c:636-644 | the first unused slot; -1 iff all sixteen are used |
| `TagBlock.FillAdds` | xv6/kernel/fs.c:698-704 | filling an unused slot adds exactly one key with its zero-padded value to the block's map |
| `TagBlock.ChangeSets` | xv6/kernel/fs.c:705-710 | rewriting a used slot's value changes the map at its key only |
| `TagBlock.EraseRemoves` | xv6/kernel/fs.c:743-745 | erasing a slot removes exactly its key, and the slot is unused |
| `TagBlock.TagCount` | xv6/kernel/fs.c:615-644 | the map has as many keys as slots are used, at most sixteen; full iff every slot is used; keys have 1 to 9 bytes, values 18 |
| `Tags.SetInBlock` | xv6/kernel/fs.c:680-710 | fails iff the key is new and sixteen are used, changing nothing; otherwise the map gets the padded value at the key |
| `Tags.RemoveInBlock` | xv6/kernel/fs.c:735-749 | succeeds iff the key is there; the map loses it |
| `Tags.GetFromBlock` | xv6/kernel/fs.c:789-815 | the return value and the buffer for a key that is there; -1 and the buffer alone otherwise |
| `Tags.ListKeys` | xv6/kernel/fs.c:849-862 | the keys in slot order, or -1 when there are more than asked for |
| `Tags.TagWriteKeeps` | xv6/kernel/fs.c:680-715 | writing a tag block keeps the ownership invariant, the bytes of every file and every other tag block |
| `Tags.TagAddKeeps` | xv6/kernel/fs.c:674-677 | giving an inode a tag block keeps them too |
| `Tags.EnsureBlock` | xv6/kernel/fs.c:674-677 | the file has a tag block afterwards, its map is as before, one block is taken iff it had none |
| `Tags.PutBlock` | xv6/kernel/fs.c:711-712 | the file's map is the new block's; all bytes and other maps are as before |
| `Tags.Accepted` | xv6/kernel/fs.c:646-863 | which calls are refused, on the fields of the descriptor (an open inode, writable or readable) and the lengths (keys of 1 to 9 bytes, values of 0 to 18) |
| `Tags.TagFile` | xv6/kernel/fs.c:646-715 | -1 iff descriptor, key or length is bad (nothing changes) or the key is new and sixteen are used; otherwise the file's map gets the padded value at the key; all files' bytes and other files' maps are unchanged; one block is taken iff the file had no tag block |
| `Tags.RemoveFileTag` | xv6/kernel/fs.c:717-750 | 1 iff the file is writable and has the key; then exactly that key is gone |
| `Tags.GetFileTag` | xv6/kernel/fs.c:752-817 | -1 iff the file is not writable or lacks the key; otherwise the length read and the buffer, as a function of the stored value |
| `Tags.GetAllTags` | xv6/kernel/fs.c:819-863 | all keys, once each, and their number; -1 and the first maxTag keys when there are more; -1 for a bad descriptor |
| `Tags.ReadStored` | xv6/kernel/fs.c:801-815 | for a stored value without zero bytes the returned length is the larger of its length and the length asked for (up to 18) |
| `Tags.ReadExact` | xv6/kernel/fs.c:801-815 | with a buffer exactly as long as the stored value, the buffer becomes the value |
| `FileRuns.TagStep` | xv6/kernel/fs.c:646-863 | a tag call on one file, seen on flat files: one map changes, no bytes do |
| `FileRuns.BytesStep` | xv6/kernel/fs.c:319-451 | a call on the bytes of one file, seen on flat files: one byte sequence changes, no map does |
| `FileRuns.Do` | xv6/kernel/fs.c:319-863 | one call on the disk does to the flat files and maps what the abstract call does, with an answer the abstract call allows |
| `FileRuns.Run` | xv6/kernel/fs.c:319-863 | every sequence of writei, readi, itrunc and tag calls on any files that never needs a block when none is left ends in the state, and gives the answers, of the same sequence on flat byte sequences and maps |
| `SystemRuns.LinkFlat` | xv6/kernel/fs.c:495-523 | dirlink seen on flat files: one directory becomes exactly the directory with the entry in its first empty place, paid for in blocks; no other file and no tag changes |
| `SystemRuns.UnlinkFlat` | xv6/kernel/sysfile.c:178-200 | unlink seen on flat files: one directory loses the entry, or nothing changes |
| `SystemRuns.Do` | xv6/kernel/fs.c:319-863 | one file, tag or directory call on the disk does to flat files, tags and directories what the abstract call does, with an answer it allows |
| `SystemRuns.Run` | xv6/kernel/fs.c:319-863 | every run that mixes file, tag, lookup, link and unlink calls and never runs out of room ends in the state, and gives the answers, of the same run on flat files, tag maps and directories |
| `SystemRuns.NamesFollow` | xv6/kernel/fs.c:459-523 | a directory, as a map, changes exactly by the links and unlinks that name it; no directory call changes a file or a tag |
| `SystemRuns.NamesOverRun` | xv6/kernel/fs.c:459-523 | the same over every run |
| `SystemRuns.BootAndRun` | xv6/tools/mkfs.c:310-322 | the same refinement for every run that starts from an image made by mkfs and booted |
| `Directory.DirentReads` | xv6/kernel/fs.c:517-518 | a new entry reads back as the key of the name and the inode number cut to 16 bits |
| `Strings.StrNCmp` | xv6/kernel/string.c:54-62 | 0 iff the strings agree byte by byte up to the end of the first or for n bytes; otherwise the difference at the first place where they do not |
| `Strings.StrNCpy` | xv6/kernel/string.c:64-75 | the n bytes are those of the string and then zeros |
| `Strings.SameNameIs` | xv6/kernel/string.c:54-62 | for strings without NUL: equal, or both at least n long with the same first n bytes |
| `Directory.TruncSame` | xv6/kernel/fs.c:455-459 | two names have one key iff namecmp finds them equal, that is iff they are equal or agree on their first 14 bytes; a name of at most 14 bytes is its own key |
| `Directory.EntryNameIs` | xv6/kernel/fs.c:455-459 | an entry has the key of a name iff namecmp finds its 14 bytes, ended by a NUL or not, equal to the name |
| `Directory.MakeDirent` | xv6/kernel/fs.c:517-518 | the entry of dirlink, byte by byte: the number in two bytes, the name, zeros |
| `Directory.AddEntry` | xv6/kernel/fs.c:509-520 | writing a live entry over an empty one or at the end adds exactly its name to the directory's map and keeps names different |
| `Directory.DropEntry` | xv6/kernel/sysfile.c:198-200 | writing an empty entry takes away exactly the name that was there |
| `Directory.Performed` | xv6/kernel/fs.c:495-523 | any such write of one entry for a link or a clearing changes the map as the operation on maps does |
| `Directory.RunRefines` | xv6/kernel/fs.c:495-523 | over every sequence of links and clearings the directory is the map that the same sequence makes, with no name twice |
| `Directory.NameKept` | xv6/kernel/fs.c:464-523 | operations on other names leave a name linked, or not, as it was |
| `Directory.BlockEntry` | xv6/kernel/fs.c:474-491 | an entry of a block of the directory is an entry of the file or lies past its end and is empty |
| `Directory.EntryMatches` | xv6/kernel/fs.c:479-481 | an entry is the one looked for iff it is live and equal to the name byte by byte, up to a NUL or 14 bytes |
| `Directory.ScanBlock` | xv6/kernel/fs.c:476-489 | the first live entry of a block whose key is that of the name |
| `Directory.FindEntry` | xv6/kernel/fs.c:474-492 | an entry with the name iff the directory has one; nothing changes |
| `Directory.DirLookup` | xv6/kernel/fs.c:464-493 | found iff some live entry is equal to the name by namecmp, with its inode number and place; that is iff the key is in the map; nothing changes |
| `Directory.FindEmpty` | xv6/kernel/fs.c:509-515 | the first empty entry or the end; "dirlink read" is not reached |
| `Directory.WriteEntry` | xv6/kernel/fs.c:517-520 | exactly one entry of the directory is written; never short, so the panics are not reached |
| `Directory.DirLink` | xv6/kernel/fs.c:495-523 | -1 iff some live entry is equal to the name by namecmp (nothing changes); otherwise the map gets the key, or is unchanged when the inode number has no low sixteen bits; the entry goes to the first empty place and pays for it in blocks; no other file changes |
| `Directory.LinkedPerforms` | xv6/kernel/fs.c:508-520 | writing the entry at the first empty place is an operation on the map |
| `Directory.FoundIs` | xv6/kernel/fs.c:464-493 | a name stands for a number iff one entry is equal to it by namecmp, and that entry has the number; there is never a second one |
| `Directory.LinkFinds` | xv6/kernel/fs.c:495-523 | after dirlink every name is found as before, but the one linked, and those that agree with it on the first 14 bytes, if it was not there |
| `Directory.UnlinkFinds` | xv6/kernel/sysfile.c:198-200 | after the entry of a name is cleared the name is not found, and every other is found as before |
| `Directory.IsDirEmpty` | xv6/kernel/sysfile.c:148-161 | true iff no entry after the first two is live |
| `Directory.EmptyDirIs` | xv6/kernel/sysfile.c:148-161 | for a directory that begins with "." and "..": iff its map has no other name |
| `Directory.Unlink` | xv6/kernel/sysfile.c:178-200 | -1, and nothing changes, iff the name is "." or "..", is not in the map, or names a directory with entries besides those two; otherwise the map loses the name; no other file changes |
| `Directory.ClearEntry` | xv6/kernel/sysfile.c:198-200 | the entry found is cleared: the map loses its name and nothing else changes; the panic is not reached |
| `Mkfs.FirstBitsAre` | xv6/tools/mkfs.c:310-322 | exactly the first n bits of the bitmap block are set |
| `Mkfs.BitmapBlock` | xv6/tools/mkfs.c:310-322 | the loop builds that block |
| `Mkfs.NextBit` | xv6/tools/mkfs.c:345-360 | giving out the next block is marking the lowest unmarked one |
| `Mkfs.EmptyInv` | xv6/tools/mkfs.c:67-95 | a fresh image with its bitmap satisfies the ownership invariant with no files |
| `Mkfs.Image.constructor` | xv6/tools/mkfs.c:67-95 | the image starts valid, with the metadata blocks given out |
| `Mkfs.Image.NewBlock` | xv6/tools/mkfs.c:345-360 | the next block is unowned and zero, and the image with its bitmap stays consistent |
| `Mkfs.Image.IAlloc` | xv6/tools/mkfs.c:296-308 | the next inode gets its kind, no blocks, and no file's bytes change |
| `Mkfs.Image.MapBlock` | xv6/tools/mkfs.c:344-364 | the block exists afterwards, taken in order from the free ones; no byte of any file changes |
| `Mkfs.Image.PutChunk` | xv6/tools/mkfs.c:341-371 | one piece is written in one block; all other bytes stay |
| `Mkfs.Image.IAppend` | xv6/tools/mkfs.c:328-375 | the bytes are appended to one file, across direct and indirect blocks; no other file changes; freeblock advances by exactly the new blocks |
| `Mkfs.RoundingOk` | xv6/tools/mkfs.c:188-193 | rounding a directory's size keeps every byte below it mapped iff the size was not a multiple of the block size; then only zeros are added |
| `Mkfs.FullBlockDirectory` | xv6/tools/mkfs.c:188-193 | a directory of 32 entries is rounded into a block it does not have |
| `Mkfs.FullDirectory` | xv6/tools/mkfs.c:188-193 | such a directory made by ialloc and iappend: a valid image that its rounding breaks |
| `Mkfs.Image.RoundSize` | xv6/tools/mkfs.c:188-193 | off a boundary, rounding keeps the image valid and adds only zeros |
| `Mkfs.Image.Boot` | xv6/tools/mkfs.c:310-322 | once the bitmap is written the kernel's file system invariant holds, the files are the ones put in, and the free blocks are exactly those not given out |
| `Mkfs.FillDisk` | xv6/tools/mkfs.c:328-375 | files can be added until no block is left |
| `Mkfs.LastBit` | xv6/tools/mkfs.c:310-322 | on a full disk smaller than one bitmap block every bit below the size is set and the next is clear |
| `Mkfs.PastTheEnd` | xv6/kernel/fs.c:53-76 | on every booted full disk smaller than one bitmap block, balloc succeeds with the block after the last |
| `Mkfs.FullDisk` | xv6/kernel/fs.c:53-76 | a full disk of the default size: balloc hands out block 1024 of 1024 |
| `BcacheProof.StepKeepsInv` | xv6/kernel/bio.c:61-137 | every step of every client and of the disk keeps the invariant of cache, queue, ring and sleepers |
| `BcacheProof.RunInv` | xv6/kernel/bio.c:39-137 | it holds in every state of every run |
| `BcacheProof.CacheAgrees` | xv6/kernel/bio.c:61-137 | in every run: one buffer per sector, at most one holder, busy iff held, and a valid buffer that nobody holds equals the disk |
| `BcacheProof.HeldEqualsDisk` | xv6/kernel/bio.c:96-116 | a buffer that a client holds is valid and clean, and equals the sector it caches until the client changes it |
| `BcacheProof.RequestDone` | xv6/kernel/ide.c:123-154 | when iderw returns its buffer is valid, clean, off the queue, unchanged, and equal to the sector it caches |
| `BcacheProof.ReleaseKeepsSleepers` | xv6/kernel/bio.c:118-137 | after brelse nobody sleeps in bget on the released buffer, and every other sleeper still has a reason to |
| `BcacheProof.InterruptKeepsSleepers` | xv6/kernel/ide.c:89-119 | after ideintr nobody sleeps in iderw on the served buffer, and every other sleeper still has a reason to |
| `BcacheProof.SleepsForReason` | xv6/kernel/bio.c:70-79 | in every run: a sleeper in bget waits for a buffer that another client holds and that caches its sector; a sleeper in iderw for a request still in the queue, with the disk at work |
| `BcacheProof.SleeperNotStuck` | xv6/kernel/ide.c:123-154 | in every run, while a client sleeps the disk can finish a request or the holder of the buffer can go on |
| `BcacheProof.ServedInOrder` | xv6/kernel/ide.c:67-154 | the queue is the unserved rest of all requests in order, distinct and busy; the disk works for its head whenever it is not empty |
| `BcacheProof.RingByRelease` | xv6/kernel/bio.c:118-137 | the ring lists every buffer once, latest release first |
| `BcacheProof.RecyclesOldest` | xv6/kernel/bio.c:82-91 | the recycled buffer is, of the unheld ones, the one released longest ago |
| `BcacheRuns.StepRefines` | xv6/kernel/bio.c:61-137 | every step of clients, cache and disk does to a plain disk, read and written at once, what the client's call does, or nothing |
| `BcacheRuns.RunRefines` | xv6/kernel/bio.c:61-137 | so every run with its calls refines the plain disk with the same calls |
| `BcacheRuns.BreadGivesSector` | xv6/kernel/bio.c:61-105 | in every run, a client that has returned from bread has the sector it asked for, with the bytes of the last bwrite to that sector by anyone, or its own changes |
| `BcacheRuns.DiskStep` | xv6/kernel/ide.c:67-119 | a sector of the disk changes just when a buffer for it is served to be written, and gets the buffer's bytes |
| `BcacheRuns.DataStep` | xv6/kernel/ide.c:67-119 | a buffer's bytes change just when its client changes them or the disk serves it to be read, and then are the sector's |
| `BcacheRuns.BwriteReaches` | xv6/kernel/bio.c:107-116 | when bwrite returns, the disk and the buffer have the bytes that the client had when it called, in the sector it had asked for |
| `BcacheRuns.RingOfReleases` | xv6/kernel/bio.c:118-137 | the ring is in the order of the last brelse of each buffer in the run, latest first |
| `BcacheRuns.VictimIsOldest` | xv6/kernel/bio.c:82-91 | the recycled buffer is, of those nobody has, the one whose last brelse in the run was first |
| `BcacheRuns.QueueIsRest` | xv6/kernel/ide.c:89-154 | the queue is the calls of iderw in the order they were made without as many as there were interrupts |
| `BcacheRuns.ClientLaw` | xv6/kernel/bio.c:61-137 | each step of a client leads on: which buffer bget takes or sleeps on, iderw and its return, brelse |
| `BcacheRuns.ServeLaw` | xv6/kernel/ide.c:89-119 | an interrupt takes the first request off the queue, valid and clean, and leaves nobody asleep on it |
| `BufRing.Unlink` | xv6/kernel/bio.c:126-127 | the two pointer writes take one buffer out of the doubly linked ring and leave the rest linked in order |
| `BufRing.LinkFront` | xv6/kernel/bio.c:128-131 | the four pointer writes put a buffer right behind the head |
| `BufRing.BufRing.constructor` | xv6/kernel/bio.c:39-58 | binit links every buffer, last one first |
| `BufRing.BufRing.MoveToFront` | xv6/kernel/bio.c:118-131 | brelse moves one buffer to the front of the ring and keeps the order of the others |
| `BufRing.BufRing.FindCached` | xv6/kernel/bio.c:69-80 | following next finds the buffer the ring model finds |
| `BufRing.BufRing.FindVictim` | xv6/kernel/bio.c:82-91 | following prev finds the buffer the ring model recycles |
| `IdeQueue.IdeQueue.Append` | xv6/kernel/ide.c:137-145 | the request goes to the end of the linked queue; the disk is started iff it was empty |
| `IdeQueue.IdeQueue.TakeFirst` | xv6/kernel/ide.c:90-103 | the first request leaves the queue |
| `ProcProof.StepKeepsInv` | xv6/kernel/proc.c:127-405 | every step of every CPU keeps the process table and CPU invariants |
| `ProcProof.RunInv` | xv6/kernel/proc.c:127-405 | they hold in every state of every run |
| `ProcProof.TreeRooted` | xv6/kernel/proc.c:127-246 | every parent is live and has a smaller pid; every process's ancestors end at init |
| `ProcProof.ReachesInit` | xv6/kernel/proc.c:127-246 | the number of steps up to init |
| `ProcProof.NoMissedChild` | xv6/kernel/proc.c:165-246 | no process sleeps in wait while it has a zombie child |
| `ProcProof.ReapedOnce` | xv6/kernel/proc.c:207-246 | no pid is reaped twice, and no process in the table has a reaped pid |
| `ProcProof.OnlyReaped` | xv6/kernel/proc.c:207-246 | a step leaves a process in its slot with its pid, and a zombie a zombie, unless it is wait by its parent on a zombie, which returns that pid |
| `ProcProof.KeptUntilReaped` | xv6/kernel/proc.c:207-246 | over every run, a process is in its slot iff wait has not returned its pid, and a zombie stays one until then |
| `ProcProof.RunningIffCurrent` | xv6/kernel/proc.c:255-306 | with ptable.lock free, a process is RUNNING iff exactly one CPU has it as current |
| `ProcProof.FreedStackUnused` | xv6/kernel/proc.c:207-306 | wait frees a stack and page table only when no CPU has the process as current; a current or picked process has both |
| `ProcLaws.SleepLaw` | xv6/kernel/proc.c:331-408 | a process is asleep on a channel after a step iff it went to sleep on it in this step, or was asleep on it and was neither woken on it nor killed |
| `ProcLaws.WakeupLaw` | xv6/kernel/proc.c:368-376 | after wakeup1 nobody sleeps on the channel; exactly its sleepers have become RUNNABLE and nothing else has changed |
| `ProcLaws.KillLaw` | xv6/kernel/proc.c:390-408 | the victim of kill is marked and not asleep, and otherwise as it was |
| `ProcLaws.StateLaw` | xv6/kernel/proc.c:127-405 | the state of a slot changes only along the life of a process, by the step for it, and a running process leaves the CPU only by itself |
| `ProcLaws.ParentLaw` | xv6/kernel/proc.c:165-204 | a parent changes only when it exits, and then to init; a process is killed only by kill |
| `ProcLaws.ForkedChild` | xv6/kernel/proc.c:127-162 | the child that fork makes runnable is the caller's, with a higher pid, a stack and memory |
| `ProcLaws.LockLaw` | xv6/kernel/proc.c:255-318 | ptable.lock changes hands only in acquire and release; swtch keeps it; no step touches another CPU |
| `ProcLaws.PidLaw` | xv6/kernel/proc.c:32-50 | pids are given out one after the other by allocproc and change only there and in wait |
| `ProcLaws.ReapLaw` | xv6/kernel/proc.c:207-246 | wait clears the whole slot of the zombie and no other |
| `ProcLaws.NoStaleChannel` | xv6/kernel/proc.c:331-361 | in every run, sleep returns with the channel cleared |
| `ProcLoops.Wakeup1` | xv6/kernel/proc.c:368-376 | exactly the sleepers on the channel become RUNNABLE |
| `ProcLoops.AllocProc` | xv6/kernel/proc.c:32-48 | the first unused slot becomes an embryo with the next pid; none iff there is no unused slot |
| `ProcLoops.ExitTable` | xv6/kernel/proc.c:187-204 | the loop of exit does to the table what the step of the model does |
| `ProcLoops.WaitScan` | xv6/kernel/proc.c:214-236 | finds a zombie child iff there is one, and otherwise whether there is a child |
| `ProcLoops.KillPid` | xv6/kernel/proc.c:390-408 | -1 iff no slot has the pid; otherwise the first that has it is marked as killed and is not asleep, and nothing else has changed |
| `PipeProof.PutKeepsFifo` | xv6/kernel/pipe.c:75-95 | a byte put into a ring that is not full keeps it a queue, with 32-bit counters |
| `PipeProof.TakeKeepsFifo` | xv6/kernel/pipe.c:97-118 | the byte taken is the oldest, and the ring stays a queue |
| `PipeProof.Counters` | xv6/kernel/pipe.c:75-118 | the wrapped counters tell full, empty and the slot exactly |
| `PipeProof.StepKeepsInv` | xv6/kernel/pipe.c:57-118 | every step of every process keeps the pipe's invariant |
| `PipeProof.RunInv` | xv6/kernel/pipe.c:57-118 | it holds in every state of every run |
| `PipeProof.NoLostWakeup` | xv6/kernel/proc.c:331-385 | with the pipe lock free, a sleeper on nwrite means full with the read end open; a sleeper on nread means the write end is open, and the pipe is empty iff no killed writer deserted it since the last wakeup of readers |
| `PipeProof.FlagIsDeserted` | xv6/kernel/pipe.c:82-86 | the model records a desertion exactly when a killed writer with bytes left returned from a full pipe with an open read end, and since then no writer or closer has woken readers and no read has emptied the pipe |
| `PipeProof.NoneKilledNoneLost` | xv6/kernel/pipe.c:82-93 | in a run without such a return, a sleeping reader's pipe is empty with its write end open |
| `PipeProof.KilledWriterLosesWakeup` | xv6/kernel/pipe.c:83-86 | a run in which a reader sleeps although the pipe is full |
| `PipeProof.BoundedQueue` | xv6/kernel/pipe.c:75-118 | what was read is a prefix of what was written, the rest is at most 512 bytes and is exactly the ring's contents |
| `PipeProof.ReadsDrain` | xv6/kernel/pipe.c:97-118 | a read returns the bytes it took, in order; it returns none only when the write end is closed and everything was read |
| `PipeBytes.Summary` | xv6/kernel/pipe.c:57-118 | a step changes the call of one process only, and takes it to the next place of its call; an end is closed by pipeclose on it and by nothing else |
| `PipeBytes.WrittenStep` | xv6/kernel/pipe.c:81-91 | the pipe gets a byte just when a writer has room, and it is the next byte of the writer's argument |
| `PipeBytes.TakenStep` | xv6/kernel/pipe.c:107-111 | a byte leaves the pipe just when a reader takes it; it is the oldest, and the reader gets it |
| `PipeBytes.WriterStep` | xv6/kernel/pipe.c:75-95 | what a writer has left shrinks by exactly the bytes it puts; all is put unless the call gives up |
| `PipeBytes.WritesAsked` | xv6/kernel/pipe.c:75-95 | in every run, the bytes a process has put and those it has left are, in order, the arguments of its calls, each cut where the call returned -1 |
| `PipeBytes.WriteComplete` | xv6/kernel/pipe.c:92-94 | a call that comes to its last wakeup has put its whole argument |
| `PipeBytes.OneWriter` | xv6/kernel/pipe.c:75-118 | with one writer whose calls never return -1, what readers have taken is a prefix of what it was asked to write; the contents of the pipe and what the writer has left follow |
| `PipeBytes.Shuffled` | xv6/kernel/pipe.c:75-95 | with many writers, the bytes written are a shuffle of what each of them put |
| `PipeBytes.ReadResult` | xv6/kernel/pipe.c:97-118 | piperead gives the oldest bytes of the pipe in order, as many as it was asked for or all there were; none only when the write end is closed |
| `PipeBytes.KilledNotSleeping` | xv6/kernel/pipe.c:82-106 | a reader that is killed, and a writer that is killed before it has woken the readers, does not go to sleep |
| `FileTable.FileAlloc` | xv6/kernel/file.c:20-36 | the first unreferenced file gets one reference; none iff all are referenced |
| `FileTable.FdAlloc` | xv6/kernel/sysfile.c:33-45 | the first empty slot names the file; -1 iff there is none |
| `FileTableProof.FileCloseKeeps` | xv6/kernel/file.c:51-72 | fileclose keeps counts exact and pipe ends held, and never meets an unreferenced file |
| `FileTableProof.PipeCloseKeeps` | xv6/kernel/pipe.c:57-73 | pipeclose closes an end that is open |
| `FileTableProof.PipeMakeKeeps` | xv6/kernel/pipe.c:21-48 | a new pipe has both ends open, each held by one file |
| `FileTableProof.GiveUpKeeps` | xv6/kernel/sysfile.c:280-392 | every failure path of open and pipe turns exactly what was held into what is closed |
| `FileTableProof.ForkCopyKeeps` | xv6/kernel/proc.c:151-153 | each copied slot is counted, and filedup never meets an unreferenced file |
| `FileTableProof.StepKeepsInv` | xv6/kernel/sysfile.c:33-392 | every step of dup, close, open, pipe, fork and exit by any process keeps the invariant |
| `FileTableProof.RunInv` | xv6/kernel/sysfile.c:33-392 | it holds after every run |
| `FileTableProof.RefsExact` | xv6/kernel/file.c:20-72 | with no call in progress, each file's count is the number of descriptor slots that name it, and a file with none has no type |
| `FileTableProof.EndOpenIffNamed` | xv6/kernel/pipe.c:21-73 | with no call in progress, an end of a pipe is open iff some descriptor names its file |
| `FileTableProof.FreedOnce` | xv6/kernel/pipe.c:57-73 | in every state a pipe's page has been freed once if both ends are closed and not at all otherwise |
| `FileTableProof.PipeGivesEnds` | xv6/kernel/sysfile.c:370-392 | when pipe succeeds its first descriptor names the read end and its second the write end of one pipe with both ends open |
| `FileTableProof.ForkShares` | xv6/kernel/proc.c:151-153 | at the end of fork the child's descriptors are the parent's |
| `FileTableProof.NoPanic` | xv6/kernel/file.c:38-72 | filedup and fileclose never panic; pipeclose never meets a freed pipe |
| `FileTableProof.NeverStuck` | xv6/kernel/sysfile.c:33-392 | a process inside one of these calls always has a next step |
| `FileTableCalls.OthersLeave` | xv6/kernel/sysfile.c:33-392 | nobody changes the descriptors of a process, or where it is in a call, but the process itself |
| `FileTableCalls.WholeCall` | xv6/kernel/sysfile.c:33-392 | in every run, from its first step to its return and whatever others do meanwhile: dup(fd) makes the lowest empty slot name what fd names; close(fd) empties fd alone; open fills the lowest empty slot with an inode file; pipe fills two with the ends of one pipe; fork gives the child the caller's table; a failing call leaves the table as it was |
| `FileTableCalls.AllocatedIsNew` | xv6/kernel/file.c:20-36 | the file that open or pipe takes is in no descriptor table |
| `FileTableCalls.MeaningKept` | xv6/kernel/file.c:50-77 | while a descriptor names a file, the file stays the same inode or pipe end, whoever closes and opens others |
| `FileTableCalls.CallEnds` | xv6/kernel/sysfile.c:33-392 | every step of a call brings it nearer to its return |
| `FileTableCalls.FailsIff` | xv6/kernel/sysfile.c:258-392 | open and pipe fail at a point iff the file or slot needed there is not to be had; pipe may fail for lack of a page |
| `FileTableCalls.ExitAndFork` | xv6/kernel/proc.c:127-204 | an exited process has no descriptors and leaves its slot; a child begins with none |
| `PagingSteps.FramesApart` | xv6/kernel/vm.c:52-149 | no frame is mapped at two user pages of any spaces, and no mapped frame is free or a page table |
| `Paging.StepKeepsInv` | xv6/kernel/vm.c:52-149 | a change confined to one space's frames keeps the invariant of all |
| `PagingSteps.TakeUserOk` | xv6/kernel/vm.c:241-248 | mapping a fresh frame at a user page keeps the invariant and all other spaces |
| `PagingSteps.DropUserOk` | xv6/kernel/vm.c:268-275 | freeing a user page's frame and clearing its entry keeps them too |
| `VirtualMemory.Memory.constructor` | xv6/kernel/kalloc.c:22-32 | kinit: every page above the kernel is on the free list once, and nothing is owned |
| `VirtualMemory.Memory.Kalloc` | xv6/kernel/kalloc.c:59-70 | a frame that nobody owns and that is free no longer, or none iff no frame is free; the free list stays without repetition or owned frames |
| `VirtualMemory.Memory.Kfree` | xv6/kernel/kalloc.c:38-54 | a frame in use becomes free: no frame is free twice or free and owned, and none is lost |
| `VirtualMemory.Memory.WalkCreate` | xv6/kernel/vm.c:52-72 | a page table for the address exists afterwards, no translation changes; fails iff it is missing and no frame is free, changing nothing |
| `VirtualMemory.Memory.MapKernel` | xv6/kernel/vm.c:77-98 | succeeds iff the free list has as many frames as tables over the range are missing; then exactly the pages of the range are mapped to their own frames with the permission given; the frames went from the head of the free list to tables of this space; on failure none is left |
| `VirtualMemory.Memory.MapRanges` | xv6/kernel/vm.c:143-146 | the four ranges of kmap take twelve tables: mapping them succeeds iff twelve frames are free |
| `VirtualMemory.KernelTableCount` | xv6/kernel/vm.c:121-130 | the ranges of kmap lie in twelve page tables |
| `VirtualMemory.Memory.SetupKvm` | xv6/kernel/vm.c:134-149 | succeeds iff thirteen frames are free: a new space with exactly the kernel's mappings, no user page, and a page table over all of user space; otherwise no frame is free afterwards and all that were free belong to the space it gave up; other spaces are unchanged |
| `VirtualMemory.Memory.AddPage` | xv6/kernel/vm.c:241-248 | fails iff no frame is free, changing nothing: the unchecked mappages cannot fail |
| `VirtualMemory.Memory.AllocUvm` | xv6/kernel/vm.c:228-251 | maps exactly the pages of [PGROUNDUP(oldsz), newsz) to zeroed frames of their own iff enough frames are free; otherwise mappings and free set are as before |
| `VirtualMemory.Memory.GrowPages` | xv6/kernel/vm.c:239-250 | the loop maps all pages iff enough frames are free, and undoes what it did otherwise |
| `VirtualMemory.GrowUndone` | xv6/kernel/vm.c:241-246 | shrinking after a partial growth restores the space and the free set |
| `VirtualMemory.Memory.DeallocUvm` | xv6/kernel/vm.c:257-278 | exactly the user pages of the range are gone, their frames free; all else is unchanged |
| `VirtualMemory.Memory.DropPage` | xv6/kernel/vm.c:268-275 | one user page is gone and its frame free, if it was mapped; all else is unchanged |
| `VirtualMemory.Memory.FreeVm` | xv6/kernel/vm.c:282-295 | exactly the frames, tables and directory of one space go back to the free list; all other spaces are unchanged |
| `VirtualMemory.Memory.CopyUvm` | xv6/kernel/vm.c:297-326 | succeeds iff thirteen frames and one for each page below sz are free: a new space with the parent's bytes at every page below sz, writable and usable by the user, and nothing above; on failure the free set is as before iff no frame or at least thirteen were free, and else every free frame is lost; other spaces are unchanged |
| `VirtualMemory.Memory.CopyPages` | xv6/kernel/vm.c:307-325 | the loop copies every page below sz iff enough frames are free; otherwise owners and free set are as before setupkvm |
| `VirtualMemory.FirstSpace` | xv6/kernel/vm.c:16-19 | the first space exists after kinit iff thirteen frames are above the kernel; otherwise all of them are lost |
| `VirtualMemory.LeakingCopy` | xv6/kernel/vm.c:306-307 | a machine on which copyuvm fails and loses the last free frame |
| `VirtualMemory.CopyUndone` | xv6/kernel/vm.c:297-326 | freeing a copy, complete or partial, gives back exactly the frames it took |
| `UserCopy.StoreKeepsInv` | xv6/kernel/vm.c:360-360 | writing into the frame of a user page keeps the invariant and every other space |
| `UserCopy.StoreData` | xv6/kernel/vm.c:360-360 | it changes the bytes of that page and of no other page of the space |
| `UserCopy.Uva2ka` | xv6/kernel/vm.c:328-340 | the frame of a page that user code may use, and none for any other page that has a page table; only pages below USERTOP qualify |
| `UserCopy.NextPage` | xv6/kernel/vm.c:351-364 | the page after one that user code may use has a page table, so only the first page of a copy can lack one |
| `UserCopy.CopyPages` | xv6/kernel/vm.c:351-364 | exactly the bytes before the first page that user code may not use arrive |
| `UserCopy.CopyOut` | xv6/kernel/vm.c:342-366 | 0 iff user code may use every page the bytes go to, and then user memory is the old one with the bytes put in place across pages; otherwise exactly the bytes before the first bad page arrive; translations, owners, the free list and other spaces are unchanged |
| `Umalloc.FreedOk` | xv6/user/umalloc.c:24-44 | putting a block back between its neighbours and joining it with those it touches keeps a single address-ordered ring of blocks that do not touch |
| `Umalloc.FreedShape` | xv6/user/umalloc.c:24-44 | which blocks are free afterwards and how large, in all four cases of touching above and below |
| `Umalloc.TakenTailOk` | xv6/user/umalloc.c:78-82 | cutting the end off a free block keeps the heap well formed |
| `Umalloc.TakenWholeOk` | xv6/user/umalloc.c:76-77 | unlinking a free block keeps it well formed |
| `Umalloc.Allocator.constructor` | xv6/user/umalloc.c:21-22 | the heap starts with nothing obtained and nothing in use |
| `Umalloc.Allocator.FindPlace` | xv6/user/umalloc.c:30-32 | the loop of free ends at the block's neighbours in the ring |
| `Umalloc.Allocator.Free` | xv6/user/umalloc.c:24-44 | one block leaves the ones in use, all others keep place and size, nothing obtained is lost, a free block at least as large exists, and the next search starts at the neighbour below |
| `Umalloc.Allocator.MoreCore` | xv6/user/umalloc.c:46-61 | a region of at least 4096 units becomes free, or nothing changes |
| `Umalloc.Allocator.Take` | xv6/user/umalloc.c:75-85 | exactly nunits leave a free block that is large enough, whole or from its end |
| `Umalloc.Allocator.Fit` | xv6/user/umalloc.c:74-89 | none iff no free block has nunits and sbrk gives no region; sbrk is asked iff no free block has nunits; otherwise exactly nunits, from the end of the first free block after freep that is large enough, and freep becomes the block before it |
| `Umalloc.Allocator.Malloc` | xv6/user/umalloc.c:63-90 | ends; fails iff no free block is large enough and sbrk gives no region; asks sbrk iff no free block is large enough; otherwise a new block large enough for nbytes and not larger than needed, the first fit after freep, with all blocks in use left alone |
| `UmallocRuns.RingInOrder` | xv6/user/umalloc.c:24-44 | following the links from the base meets the free blocks in order of address |
| `UmallocRuns.RingCloses` | xv6/user/umalloc.c:24-44 | after as many steps as there are free blocks the walk is back, and not before: one wrap point |
| `UmallocRuns.Conservation` | xv6/user/umalloc.c:24-90 | free units and units in use add up to all units obtained |
| `UmallocRuns.Run` | xv6/user/umalloc.c:24-90 | any sequence of malloc and of free of pointers in use: each call answers and changes the heap as its contract says, and at the end the ones in use are those of the calls and their answers |
| `UmallocRuns.PointersApart` | xv6/user/umalloc.c:24-90 | the bytes of two pointers in use do not overlap |
| `UmallocRuns.PointerNotFree` | xv6/user/umalloc.c:24-90 | the bytes of a pointer in use lie in no free block |
| `UmallocRuns.StepServes` | xv6/user/umalloc.c:24-90 | a call keeps every pointer in use on a block of its own that is large enough; a new answer is none of them |
| `UmallocRuns.EveryRun` | xv6/user/umalloc.c:24-90 | after every call of every run: pointers in use are those of the calls and answers so far, each with its bytes to itself; the free list is one ring in address order; no unit is lost; and malloc answers 0 iff no free block is large enough and sbrk gives no region |
| `ShellProof.LineComplete` | xv6/user/sh.c:343-446 | every line of the grammar whose commands have at most nine words is parsed, to what it means |
| `ShellProof.LineSound` | xv6/user/sh.c:343-446 | whatever is parsed is a line of the grammar with that meaning |
| `ShellProof.ParsesTheGrammar` | xv6/user/sh.c:326-446 | a token list is accepted with tree c iff it is a line of the grammar, within nine words a command, that means c: precedence, grouping and order of redirections included |
| `ShellProof.ParsesPrinted` | xv6/user/sh.c:326-446 | parsing the fully parenthesised printing of any tree returns the tree |
| `ShellProof.ParsedFits` | xv6/user/sh.c:326-446 | any parsed tree can be printed and parsed again, to itself |
| `ShellText.LexRender` | xv6/user/sh.c:264-307 | a text made of tokens with spaces scans as those tokens |
| `ShellText.LineCommutes` | xv6/user/sh.c:326-446 | parsing places in the line and then reading them is parsing the words; every place is a maximal run of word characters |
| `ShellText.RoundTrip` | xv6/user/sh.c:264-446 | for every tree with at most nine words a command and words without NUL, space or symbol, parsing its printed text gives places that read as the tree |
| `Shell.GetToken` | xv6/user/sh.c:264-307 | the next token of the line with its place, and a cursor at the rest; 0 iff there is none |
| `Shell.Peek` | xv6/user/sh.c:309-318 | whether the next token starts with one of the symbols, without losing a token |
| `Shell.ParseRedirsAt` | xv6/user/sh.c:373-396 | the cursor loop agrees with the parser over tokens, errors included |
| `Shell.ParseSimpleAt` | xv6/user/sh.c:424-446 | the argument loop of parseexec agrees with the parser over tokens, with its limit of words |
| `Shell.ParseExecAt` | xv6/user/sh.c:414-446 | the same for parseexec, which ends on every input |
| `Shell.ParseBlockAt` | xv6/user/sh.c:398-412 | the same for parseblock |
| `Shell.ParsePipeAt` | xv6/user/sh.c:360-371 | the same for parsepipe |
| `Shell.ParseLineAt` | xv6/user/sh.c:343-358 | the same for parseline |
| `Shell.NulTerminate` | xv6/user/sh.c:448-492 | exactly the characters at the ends of words become NUL |
| `Shell.TreeReads` | xv6/user/sh.c:448-492 | then every argv and file pointer reads exactly its word: no end lies inside a word |
| `Shell.ParseCmd` | xv6/user/sh.c:326-341 | the tree read through its pointers in the ended line is what the parser over tokens makes of the words; a syntax error is the same error, before anything is written |
| `Grep.HereOne` | xv6/user/grep.c:83-95 | the language of a pattern that starts with a single character |
| `Grep.HereStar` | xv6/user/grep.c:97-105 | the language of a pattern that starts with a starred character: some number of repetitions |
| `Grep.Match` | xv6/user/grep.c:71-81 | true iff some position (only the first after ^) starts a substring in the pattern's language, reaching the end of the text when the pattern ends in an unstarred $ |
| `Grep.MatchHere` | xv6/user/grep.c:83-95 | true iff a prefix of the text is in the language; ends |
| `Grep.MatchStar` | xv6/user/grep.c:97-105 | true iff the rest of the pattern matches after some number of repetitions; ends |

## Left out

- FileSystem.FileSystem.ReadI: stated for files and directories; reading a device goes through `devsw` to code that is not modelled.
- FileSystem.FileSystem.WriteI: stated for files and directories, for the same reason.
- Tags.TagFile: the tags are those of an inode that stays in memory, because the code does not write the tag block's number to disk; null pointers for keys and values are not modelled.
- TagBlock.SearchEnd: tests the index before it reads, where the code reads one byte past the block first; the result is the same.
- UserCopy.Uva2ka: stated for pages that have a page table; for others the code reads through a null entry.
- UserCopy.CopyPages: stated for a first page that has a page table, for the same reason; later pages always have one.
- UserCopy.CopyOut: stated for a first page that has a page table, for the same reason.
- BcacheProof.RequestDone: disk reads are taken to succeed and interrupts to come only for the active request; `ideintr` marks a buffer valid even when the disk reports an error.
- The inode area of the disk is a sequence of inodes, not bytes; link counts, device numbers and byte order are not modelled, and neither is the inode cache (`iget`, `ilock`, `iput`).
- `getFilesByTag`, which reads inodes it has not locked and keeps the references it takes.
- Directory.Unlink: the link counts of the inode and of the directory are not modelled, nor the panic when the count is 0.
- Path names (`namex`, `skipelem`), and the rest of `create`, `link` and `unlink`: plumbing over the directory operations modelled.
- `exec`, `loaduvm`, `inituvm`, `growproc` and segment set-up: plumbing over the page tables modelled.
- Spin locks are part of the state of the step systems, taken and released whole; interrupt nesting (`pushcli`, `popcli`) and memory ordering are not modelled.
- Context switches are one step; trap frames, the timer, boot code, other devices and console output are not modelled.
- Process ids do not wrap.
- `exit` closes a file and then clears its slot; in `FileTable` the slot is cleared first, which no other process can tell.
- `grep` reads its input in a buffer; only the matcher is modelled.
- The shell's reading of lines and running of commands; memory for its trees does not run out.
- Reading host directories and seeking in the image file in `mkfs`; `add_dir` is modelled by its calls of `ialloc` and `iappend` and its rounding.
- `malloc` of a size so large that rounding it to units overflows, and `sbrk` returning memory below what it returned before.
