# xv6_64 in Dafny

A Dafny 4.11 model of the hard parts of xv6_64, a small amd64 kernel with a user library, with
proofs about all its inputs, runs and reachable states. `dafny verify dfyconfig.toml` checks
everything.

The modules follow the program:

- **User heap** (`Heap`): the circular free list of `malloc` and `free`, as headers in memory, with
  the set of live blocks and the memory obtained from `sbrk` as ghost state.
- **Buffer cache and file system** (`Bytes`, `BufferCache`, `DiskLayout`, `FileData`, `FileSystem`):
  a doubly linked LRU cache that refines an array of blocks; on it the bitmap allocator, the block
  map, `readi` and `writei`, and the inode cache, down to the bytes on disk. Files refine byte
  sequences, and an owner map says which inode holds each block through which slot.
- **Directories and paths** (`DirEntries`, `Directories`, `Paths`, `PathLaws`): directories refine
  maps from 24-byte keys to inode numbers, and `namex` refines a fold of lookups; what create, unlink
  and chdir do to where paths lead.
- **Links** (`Links`, `LinkTable`, `SysFile`, `Unlink`): `create` and `sys_unlink` on the bytes of
  the disk refine two operations on a table of inodes, on which link counts are shown exact and the
  directories a tree.
- **Open files** (`Descriptors`, `OpenFiles`, `FileRuns`): the file table, descriptors, pipe ends and working
  directories of all processes on top of the file system; every count is exact between calls, and
  every error exit gives back what it took. No file open for writing is a directory, so reads and
  writes keep the counts as well.
- **The first state** (`MkfsImage`): the bytes that `mkfs` writes meet all of these invariants, and
  the kernel comes up on them with a process in the root directory.
- **Pipes and processes** (`Pipe`, `PipeBytes`, `Processes`): step machines over every interleaving,
  with `sleep` and `wakeup` split where another CPU can intervene; the bytes that readers get are
  told from the buffers that writers were given.
- **Page tables** (`PageTables`, `Mappings`, `Teardown`, `Image`, `AddressSpaces`, `MemoryRuns`):
  the four-level tables refine a flat map from page number to entry; each frame has one role, from
  `free_range` on; growing, shrinking, copying and freeing an address space.
- **exec** (`UserBytes`, `ArgStack`, `Elf`, `ExecImage`): the headers of any file, the image built from
  them and the argument stack, as bytes at virtual addresses behind the page tables.
- **Shell parser** (`ShellGrammar`, `Shell`, `ShellLaws`): recursive descent with one cursor refines
  a grammar on tokens, followed by `null_terminate` in place; what the grammar makes of lines as they
  are typed.

`Common` has what they share. A kernel panic is an outcome, and where it cannot happen the contract says so. A call that would
have to wait for a buffer or an inode that is locked has the outcome `Blocked`.

Some promises do not hold of the code as it stands. Each has an exact condition, and a concrete
counterexample where it fails:

- `free_vm` does not give back every page of an address space (`Teardown.FreesAllIff`,
  `Teardown.NullPageLoses`, `Teardown.SmallSpaceLoses`). `dealloc_uvm` leaves a 2 MiB region at its
  first hole, and page 0 is such a hole. The comment in `free_entry` that all entries were freed
  before is therefore not right; the model follows the code. For the same reason a failed
  `copy_uvm` loses frames exactly if five pages were free (`AddressSpaces.Vm.CopyUvm`,
  `MemoryRuns.ForkLoses`), and a process that shrinks to exactly 0 keeps its size but not its pages
  from 2 MiB on (`AddressSpaces.Vm.GrowProc`, `Image.ImageZero`, `MemoryRuns.ShrinkLoses`).
- A killed pipe writer returns without waking readers (`Pipe.NoLostWakeup`, `Pipe.WakeupLost`).
- `more_core` passes its byte count to an `int` (`Heap.GrowthExactIffFits`, `Heap.GrowthTruncates`),
  and `malloc` rounds up in 64 bits (`Heap.EnoughIffNoWrap`, `Heap.RequestWraps`).
- `create` in a directory that was removed while open breaks the link counts, every time
  (`SysFile.CreateCounts`, `Links.CreateRemoved`).

## Model

| member | source | states |
|---|---|---|
| `Heap.GrowthExactIffFits` | user/malloc.c:44-54 | sbrk is asked for exactly the memory that is then recorded as free if and only if the request fits the int that sbrk takes |
| `Heap.GrowthTruncates` | user/malloc.c:44-54 | a concrete request for which sbrk is asked for nothing while more_core records 2^28 units as free |
| `Heap.EnoughIffNoWrap` | user/malloc.c:59-59 | the units malloc looks for hold the request if and only if rounding it up does not wrap around, and then with less than a unit to spare |
| `Heap.RequestWraps` | user/malloc.c:59-59 | the request for which it wraps: 2^64 - 1 bytes are answered with one unit, the header alone |
| `Heap.InsertUnits` | user/malloc.c:13-42 | the free units after free are those before plus exactly the units of the freed block |
| `Heap.InsertCoalesced` | user/malloc.c:13-42 | freeing keeps the ring in address order with no two free blocks touching, whichever sides are merged |
| `Heap.InsertRing` | user/malloc.c:13-42 | the two conditional link updates of free produce the ring of headers for the merged list |
| `Heap.FreePartition` | user/malloc.c:13-42 | after free, free and live blocks partition the memory obtained from sbrk |
| `Heap.TakeUnits` | user/malloc.c:74-88 | carving n units off a free block removes exactly those units from the free ones |
| `Heap.TakePartition` | user/malloc.c:74-88 | the carved block is disjoint from every live one, and free and live blocks still partition the memory |
| `Heap.TakeRing` | user/malloc.c:74-88 | unlinking or shrinking the block in place leaves a closed ring of headers |
| `Heap.GrowPartition` | user/malloc.c:44-54 | memory fresh from sbrk enters the partition as one block disjoint from all others |
| `Heap.FreeKeeps` | user/malloc.c:13-42 | the whole heap invariant after free |
| `Heap.TakeKeeps` | user/malloc.c:74-88 | the whole heap invariant after a block is taken |
| `Heap.GrowKeeps` | user/malloc.c:44-54 | the whole heap invariant after the break moved |
| `Heap.Allocator.constructor` | user/malloc.c:10-11 | the heap before the first call: nothing obtained, nothing live |
| `Heap.Allocator.FindGap` | user/malloc.c:13-22 | the search of free ends, at the unique place in the ring where the block belongs |
| `Heap.Allocator.Free` | user/malloc.c:13-42 | freeing a live block keeps the invariant and removes exactly that block from the live ones |
| `Heap.Allocator.MoreCore` | user/malloc.c:44-54 | on success exactly the new units join the heap, next to where the search resumes; on refusal nothing changes |
| `Heap.Allocator.InitRing` | user/malloc.c:64-69 | the first call makes the one-element ring of the static base header |
| `Heap.Allocator.Search` | user/malloc.c:71-95 | the first node along the ring from free_p that is large enough, with the node before it, or 0 if and only if none is and the kernel refuses |
| `Heap.FirstFitBy` | user/malloc.c:71-95 | the nodes passed over are all too small |
| `Heap.Allocator.Malloc` | user/malloc.c:56-96 | a block of the units asked for that was not live, the end of the first node along the ring from free_p that has them, free_p then being the node before; or 0 with the live blocks as they were; 0 if and only if no free block fits and the kernel refuses; the heap invariant holds in both cases |
| `Bytes.LERoundTrip` | kernel/fs.h:44-51 | a little-endian integer reads back as the number written |
| `Bytes.PtrAtWithPtr` | kernel/fs.c:245-273 | writing one block number of an indirect block changes that one and no other |
| `Bytes.BitOfPutBit` | kernel/fs.c:28-61 | setting or clearing one bit of a byte changes that bit and no other |
| `Bytes.DinodeRoundTrip` | kernel/fs.h:37-51 | every inode that fits its fields survives encoding to 128 bytes and decoding |
| `Bytes.DinodeAtWithDinode` | kernel/fs.c:104-115 | writing one inode of an inode block leaves the other inodes of the block alone |
| `BufferCache.UnlinkLinked` | kernel/bio.c:107-136 | taking a buffer out of the doubly linked list leaves the list of the others, linked both ways |
| `BufferCache.PushFrontLinked` | kernel/bio.c:107-136 | inserting at the head links the buffer both ways in front of all others |
| `BufferCache.MoveToFront` | kernel/bio.c:107-136 | the list stays a permutation of all buffers |
| `BufferCache.LockKeeps` | kernel/bio.c:43-53 | locking the first match keeps the cache coherent with the logical disk |
| `BufferCache.EvictKeeps` | kernel/bio.c:55-86 | writing a dirty victim back under its old number and relabelling it never changes the logical disk, even with all buffers labelled (0,0) at the start |
| `BufferCache.FillKeeps` | kernel/bio.c:89-95 | reading a held, invalid buffer from the backing store yields the logical contents |
| `BufferCache.StoreKeeps` | kernel/bio.c:97-105 | storing into a held buffer changes exactly its block of the logical disk |
| `BufferCache.ReleaseKeeps` | kernel/bio.c:107-136 | unlocking and moving to the front keeps the first match for each block the live one |
| `BufferCache.UnheldSettled` | kernel/bio.c:97-136 | a valid buffer that nobody holds is dirty or agrees with the backing store |
| `BufferCache.Cache.constructor` | kernel/bio.c:15-40 | the initial list holds every buffer once and the logical disk is the backing store |
| `BufferCache.Cache.RdRw` | kernel/driver/ramdisk.c:21-48 | a dirty buffer goes to its block, an invalid one is filled from it, and a request for neither is a panic |
| `BufferCache.Cache.FindLabel` | kernel/bio.c:43-53 | the first buffer in list order with the label, or none |
| `BufferCache.Cache.FindVictim` | kernel/bio.c:55-66 | the unlocked, unreferenced buffer released longest ago |
| `BufferCache.Cache.Bget` | kernel/bio.c:43-86 | a locked buffer for the block; it blocks exactly on a block that is held, and panics exactly if the block is not cached and every buffer is in use; the logical disk is unchanged, and the victim is the buffer released longest ago |
| `BufferCache.Cache.Bread` | kernel/bio.c:89-95 | succeeds exactly for a block of the disk that nobody holds and that is cached or can be, and then gives the last contents written to it |
| `BufferCache.Cache.Store` | kernel/bio.c:97-105 | a change to a held buffer is a write to the logical disk |
| `BufferCache.Cache.Bwrite` | kernel/bio.c:97-105 | marks a held buffer dirty, and panics on one that is not held |
| `BufferCache.Cache.Brelse` | kernel/bio.c:107-136 | the buffer is released and becomes the most recently released of all |
| `DiskLayout.MkfsGeometry` | tools/mkfs.c:235-256 | the layout that mkfs writes is well formed and has six metadata blocks |
| `DiskLayout.AllocateKeeps` | kernel/fs.c:28-47 | marking a free block in use and zeroing it keeps every other block owned as before |
| `DiskLayout.FreeKeeps` | kernel/fs.c:49-61 | a block given up by its inode still has its bit set, so freeing it never meets a free block |
| `DiskLayout.AttachKeeps` | kernel/fs.c:245-273 | a new block becomes the next direct or indirect slot of one inode and of no other |
| `DiskLayout.AttachEntryKeeps` | kernel/fs.c:245-273 | a new block becomes the next entry of the indirect block of one inode |
| `DiskLayout.DetachKeeps` | kernel/fs.c:198-220 | truncation gives up exactly the blocks that the inode owned |
| `DiskLayout.FullIff` | kernel/fs.c:28-47 | every bit is set if and only if the number of owned blocks is the number of data blocks |
| `DiskLayout.ContentsFrame` | kernel/fs.c:245-348 | a file keeps its bytes while the blocks it owns keep theirs |
| `FileData.PokeByte` | kernel/fs.c:314-348 | one copy of writei changes exactly the bytes it covers, through direct and indirect blocks |
| `FileData.PatchedContents` | kernel/fs.c:314-348 | block-wise patches of a file amount to one overwrite of its bytes |
| `FileData.ZeroIff` | kernel/fs.c:245-273 | a block pointer is zero exactly in the slots past the end of the file, and otherwise names a data block owned through that slot alone |
| `FileData.FinishSame` | kernel/fs.c:314-348 | a write inside the file changes only the bytes written |
| `FileData.FinishGrow` | kernel/fs.c:314-348 | a write past the end extends the file, on disk too, allocates exactly the blocks that the new size needs, and no other file changes |
| `FileData.FreedStored` | kernel/fs.c:222-240 | freeing an inode releases its own blocks and no other file changes |
| `FileData.PutKeeps` | kernel/fs.c:222-240 | the last step of iput keeps the inode cache consistent and loses no unlinked inode that is still referenced |
| `FileData.FreshStep` | kernel/fs.c:84-98 | ialloc turns a free inode into an empty file and changes nothing else on disk |
| `FileSystem.Fs.constructor` | kernel/fs.c:70-78 | an empty inode cache over a well-formed disk |
| `FileSystem.Fs.Bzero` | kernel/fs.c:21-26 | exactly one block becomes zero |
| `FileSystem.Fs.FirstClear` | kernel/fs.c:32-42 | the lowest clear bit, or none |
| `FileSystem.Fs.Balloc` | kernel/fs.c:28-47 | the lowest free block, zeroed and in use; a panic if and only if no block is free |
| `FileSystem.Fs.Bfree` | kernel/fs.c:49-61 | clears the bit of a block in use, and panics if and only if the block is free |
| `FileSystem.Fs.Bmap` | kernel/fs.c:245-273 | the block that holds the n-th block of the file, allocated if it is the next one; a panic exactly beyond the largest file or on a full disk |
| `FileSystem.Fs.Iupdate` | kernel/fs.c:104-115 | the inode on disk becomes the cached one and no other inode changes |
| `FileSystem.Fs.Readi` | kernel/fs.c:285-311 | returns exactly the bytes from off to the lesser of off+n and the size, allocates nothing and changes nothing; fails exactly past the end or on overflow |
| `FileSystem.Fs.Writei` | kernel/fs.c:314-348 | returns n and splices the source into the file at off, allocating exactly the blocks that the new size needs, or fails without a change past the end or past the largest file; it panics if and only if the blocks needed exceed the free ones |
| `FileSystem.Fs.Itrunc` | kernel/fs.c:198-220 | frees every block of the file, direct, indirect and the indirect block itself, and no other |
| `FileSystem.Fs.Iget` | kernel/fs.c:119-152 | one more reference to the inode, in its own entry if it has one; a panic if and only if it has none and all entries are taken |
| `FileSystem.Fs.Ilock` | kernel/fs.c:162-186 | loads the inode as it is on disk; waits exactly for a held lock and panics exactly on a dead entry or a free inode |
| `FileSystem.Fs.Iunlock` | kernel/fs.c:188-194 | releases a held lock, and panics on one that is not held |
| `FileSystem.Fs.Ifree` | kernel/fs.c:222-234 | the inode and all its blocks become free, on disk too |
| `FileSystem.Fs.Iput` | kernel/fs.c:222-240 | one reference less; the inode is freed if and only if that was the last one, it is loaded and it has no links; unlinked inodes stay referenced |
| `FileSystem.Fs.Ialloc` | kernel/fs.c:84-98 | the lowest free inode gets the type and a reference; a panic exactly if none is free or the cache is full |
| `DirEntries.StrNCmp` | kernel/string.c:23-31 | its sign is the lexicographic order of the names cut to n bytes and at their NUL; zero exactly for equal ones |
| `DirEntries.StrNCpy` | kernel/string.c:33-38 | a field of n bytes with the same key, padded with NULs |
| `DirEntries.LinkGet` | kernel/fs.c:383-410 | writing an entry with a new name into a free slot or at the end binds that name and leaves every other name as it was |
| `DirEntries.UnlinkGet` | kernel/sysfile.c:285-289 | clearing the entry of a name that occurs once unbinds that name and no other |
| `DirEntries.EntryWritten` | kernel/fs.c:392-406 | the 32 bytes of an entry change one slot of the directory and no other |
| `Directories.DirLookup` | kernel/fs.c:352-380 | finds the first entry with the name and gains one reference on its inode; nothing changes if there is none; the panics are exactly a file that is no directory, a torn entry and a full inode cache |
| `Directories.DirLink` | kernel/fs.c:383-410 | on success the name, which was not there, is bound to the inode and no other name or file changes; on a collision nothing changes and no reference is gained; it panics if and only if the lookup does, the entry would make the directory larger than a file can be, or the disk has not room for it |
| `Directories.NotLast` | kernel/fs.c:222-240 | giving back a reference that was taken during a call frees no inode |
| `Paths.SkipElem` | kernel/fs.c:422-437 | the next non-empty component, cut to 24 bytes, and the path after it; nothing exactly if there is none |
| `Paths.WalkOne` | kernel/fs.c:442-467 | one turn of the walk equals one lookup, with the directory given up and its lock released |
| `Paths.Namex` | kernel/fs.c:439-473 | equals folding lookup over the non-empty components of the path, from inode 1 if the path begins with a slash and from the working directory if not; exactly one reference is gained, on the inode returned, and none on any failing exit; no lock is kept and the disk is unchanged |
| `Paths.ComponentsJoin` | kernel/fs.c:422-437 | the components of two paths joined by a slash are those of the one and then of the other |
| `Paths.ComponentsOne` | kernel/fs.c:422-437 | a name without slashes is one component, the name itself |
| `Paths.FollowJoin` | kernel/fs.c:439-473 | a path leads on from where its first part leads |
| `Paths.FollowLast` | kernel/fs.c:439-473 | the path leads to its last name looked up in what namei_parent finds |
| `PathLaws.DotLeads` | kernel/sysfile.c:113-121 | "." leads to the directory itself, even a removed one |
| `PathLaws.DotDotLeads` | kernel/sysfile.c:113-121 | ".." leads to the directory that has the directory in it, from the root to the root |
| `PathLaws.PlainKey` | kernel/fs.c:422-437 | a name counts up to 24 bytes |
| `PathLaws.EntryFound` | kernel/fs.c:352-380 | every entry of every directory is found under its name, since no directory has a name twice |
| `PathLaws.FollowMade` | kernel/sysfile.c:81-130 | create changes the goal of no path that led somewhere |
| `PathLaws.CreatedLeads` | kernel/sysfile.c:81-130 | after create its path leads to the new inode |
| `PathLaws.FollowCut` | kernel/sysfile.c:257-311 | a path that leads somewhere after unlink led there before |
| `PathLaws.CutLeads` | kernel/sysfile.c:257-311 | after unlink its path leads nowhere |
| `PathLaws.ChdirLeads` | kernel/sysfile.c:218-235 | from the new working directory each relative path leads where it led before with the path of the directory and a slash in front, also if giving up the old directory frees it |
| `Links.NoDangling` | kernel/sysfile.c:81-130 | no entry of a linked directory names a free inode |
| `Links.Reached` | kernel/sysfile.c:81-130 | every linked directory can be reached from the root by names |
| `Links.NotInside` | kernel/sysfile.c:81-130 | no directory has an entry for itself, the dots aside |
| `Links.OffStays` | kernel/sysfile.c:257-311 | from anywhere but a removed directory no entry, ".." included, leads back into it |
| `Links.NameSound` | kernel/sysfile.c:268-277 | a directory with a name other than the dots is linked, and the name is of another, allocated inode; so a removed directory is empty |
| `Links.FewLinks` | kernel/sysfile.c:113-121 | a directory has no more links than there are inodes |
| `Links.CreateNames` | kernel/sysfile.c:101-127 | create adds one name to the new inode and, for a directory, one to the parent |
| `Links.CreateKeeps` | kernel/sysfile.c:101-127 | create in a linked directory keeps every link count equal to the number of names, the linked directories a tree without cycles, and the names of each directory distinct |
| `Links.CreateRemoved` | kernel/sysfile.c:81-130 | create in a removed directory always breaks the link counts |
| `Links.EmptyLinks` | kernel/sysfile.c:279-303 | an empty directory has exactly one link, the entry of its parent |
| `Links.ParentStays` | kernel/sysfile.c:291-295 | removing a subdirectory leaves its parent linked |
| `Links.UnlinkNames` | kernel/sysfile.c:285-303 | unlink takes one name from the inode and, for a directory, one from the parent |
| `Links.UnlinkKeeps` | kernel/sysfile.c:285-303 | unlink keeps every link count equal to the number of names, the linked directories a tree without cycles, and the names of each directory distinct |
| `Links.FreeKeeps` | kernel/fs.c:222-234 | freeing an inode without links keeps the counts |
| `Links.RootOnlyWf` | tools/mkfs.c:245-249 | the counts are right, and the tree a tree, for the root directory alone |
| `Links.LinkCountsExact` | kernel/sysfile.c:81-130 | in every state of every run of create, unlink and freeing, nlink is the number of entries other than "." that name the inode in linked directories |
| `LinkTable.FieldsSettle` | kernel/fs.c:104-115 | writing back fields other than size and blocks leaves the contents of all files alone |
| `LinkTable.EntriesWritten` | kernel/fs.c:392-406 | the bytes of a directory entry, decoded, are one new entry in the table of links |
| `SysFile.NewInode` | kernel/sysfile.c:101-111 | a free inode becomes an empty one of the type with one link, loaded, locked and referenced |
| `SysFile.MakeDots` | kernel/sysfile.c:113-121 | the new directory holds exactly "." and "..", in one new block, and the parent has one link more; the panic for the dots is reached only on a full disk |
| `SysFile.MadeAbs` | kernel/sysfile.c:101-127 | on the table of links, the byte-level create is the abstract one if and only if the 16-bit link count of the parent does not overflow |
| `SysFile.CreateCounts` | kernel/sysfile.c:81-130 | create is the abstract one and keeps the link counts exact if and only if the parent is still linked; with fewer than 0x7FFF inodes its count cannot overflow |
| `SysFile.MadeDisk` | kernel/sysfile.c:81-130 | the whole disk invariant after create in a linked directory |
| `SysFile.Create` | kernel/sysfile.c:81-130 | for every path: the plain file of that name, a new inode under a name that was not there in the directory the path leads to, or nothing because there is no such directory or something else has the name; what it returns is locked and holds the one reference gained; it panics only for want of an inode, a cache entry or blocks, or on a bad directory |
| `Unlink.IsDirEmpty` | kernel/sysfile.c:245-255 | true exactly if no slot after the first two is in use |
| `Unlink.CutAbs` | kernel/sysfile.c:285-303 | on the table of links, the byte-level unlink is the abstract one |
| `Unlink.CutDisk` | kernel/sysfile.c:285-303 | the whole disk invariant after unlink |
| `Unlink.LastPut` | kernel/sysfile.c:300-303 | the table of links is unchanged or loses one inode without links, and no inode without links and references is left |
| `Unlink.EntryCounts` | kernel/sysfile.c:275-277 | an inode with a name in a linked directory has a link, so the panic for nlink < 1 is unreachable |
| `Unlink.NoGrowth` | kernel/sysfile.c:285-289 | clearing an entry needs no block, so the panic of the write is unreachable |
| `Unlink.LookupSound` | kernel/sysfile.c:268-277 | a lookup in any directory meets no torn entry; what it finds under a name other than the dots is allocated and not the directory itself, and in a removed directory it finds nothing |
| `Unlink.SysUnlink` | kernel/sysfile.c:257-311 | for every path: the entry of its last component is gone and every link count is exact, or nothing changed, because there is no such directory or name, the name is "." or "..", or it is a directory with entries; no reference is kept; its own panics are unreachable, and it never waits for a lock it holds |
| `MkfsImage.RootImageLinked` | tools/mkfs.c:235-256 | the bytes that mkfs writes for the superblock, the bitmap, the root directory and the console meet every invariant of the disk, and their table of links is the root with one create |
| `MkfsImage.SuperBack` | kernel/fs.c:15-19 | read_sb reads from the image the superblock that mkfs wrote |
| `Descriptors.PipeEndGone` | kernel/pipe.c:64-81 | when the one file of an end goes, that end is closed, and the pipe with the second end |
| `Descriptors.PipeMade` | kernel/pipe.c:29-49 | a new pipe has both ends open, each with one file |
| `Descriptors.SlotSet` | kernel/sysfile.c:12-36 | moving a reference between a descriptor slot and the kernel keeps the counts exact |
| `OpenFiles.Kernel.constructor` | kernel/file.c:16-18 | no open file, no pipe, no working directory |
| `OpenFiles.Kernel.UserInit` | kernel/proc.c:199-199 | the first process gets the root as its working directory, counted; a panic only if the inode cache is full |
| `MkfsImage.Boot` | kernel/proc.c:199-199 | on the image of mkfs the kernel comes up with every invariant of disk, caches, files and counts, and a process in the root |
| `OpenFiles.Kernel.PutInode` | kernel/fs.c:222-240 | an inode reference given up keeps references equal to open files plus working directories; only an inode without links or other references is freed |
| `OpenFiles.Kernel.FileAlloc` | kernel/file.c:21-35 | the first unused file with one reference, or none if all are in use |
| `OpenFiles.Kernel.FileClose` | kernel/file.c:49-71 | one reference less; the last one closes the end of the pipe or gives up the inode |
| `OpenFiles.Kernel.PipeClose` | kernel/pipe.c:64-81 | an end is closed, and the page goes back exactly with the second end |
| `OpenFiles.Kernel.PipeAlloc` | kernel/pipe.c:18-62 | two files on a new pipe; it fails exactly for want of two files or a page, and then files, pipes and pages are as before |
| `OpenFiles.Kernel.FdAlloc` | kernel/sysfile.c:12-22 | the lowest free descriptor, or none |
| `OpenFiles.SlotsApart` | kernel/sysfile.c:12-22 | the 16 descriptors of the 64 processes are all different |
| `OpenFiles.Kernel.SysDup` | kernel/sysfile.c:24-36 | the lowest free descriptor now names the same file, counted; -1 exactly on a descriptor that is not open or when none is free |
| `OpenFiles.Kernel.SysClose` | kernel/sysfile.c:61-68 | the descriptor is free and its reference given up; -1 exactly on a descriptor that is not open |
| `OpenFiles.Kernel.SysPipe` | kernel/sysfile.c:313-340 | the two lowest free descriptors on the two ends; it fails exactly for want of a page, two files or two descriptors, and then keeps none of them |
| `OpenFiles.Kernel.SysOpen` | kernel/sysfile.c:132-184 | a new file at offset 0, with the access asked for, on the inode that the path leads to or that create gives, and to which the path leads afterwards; -1 only if there is none, it is a directory opened for writing, or no file or descriptor is free, and then descriptors, files, inode references and locks are as before |
| `OpenFiles.OpenModes` | kernel/sysfile.c:132-184 | the mode bits that sys_open tests are 0x001, 0x002 and 0x200 |
| `OpenFiles.Kernel.SysChdir` | kernel/sysfile.c:218-235 | the working directory is the directory that the path leads to and the reference to the old one is given up; -1 exactly if there is none or it is no directory; afterwards each relative path q leads where path/q led before, for any non-empty path |
| `OpenFiles.Kernel.SysMake` | kernel/sysfile.c:186-216 | on the table of links mkdir and mknod are the abstract create in the directory that the path leads to, and the path then leads to the new inode; or nothing changes; every count stays exact |
| `OpenFiles.Kernel.UnlinkAt` | kernel/sysfile.c:257-311 | sys_unlink with the open files and working directories of all processes around it: every count stays exact, the path then leads nowhere, and it never waits for itself |
| `OpenFiles.Kernel.ForkFiles` | kernel/proc.c:372-376 | the child has the descriptors and the directory of its parent, each counted |
| `OpenFiles.Kernel.ExitFiles` | kernel/proc.c:437-447 | every descriptor of the process and its directory are given up, and nothing of another process |
| `OpenFiles.Kernel.FileRead` | kernel/file.c:84-100 | the bytes of the file from the offset on, and the offset moves by as many; on failure it stays; disk, caches and counts stay; refused exactly if not open for reading; no panic |
| `OpenFiles.Kernel.FileWrite` | kernel/file.c:102-118 | the bytes are spliced into the file at the offset, which moves by as many and on failure stays; no other file changes; the table of links is the same, because no file open for writing is a directory; a panic if and only if the disk has not room for the blocks needed |
| `FileRuns.ReadTwice` | kernel/file.c:84-100 | two reads of n and m bytes give, one after the other, the bytes from the offset to the lesser of offset + n + m and the size |
| `FileRuns.WriteTwice` | kernel/file.c:102-118 | two writes of s and t leave the disk as one write of both does |
| `FileRuns.WrittenTwice` | kernel/fs.c:314-348 | a write where another ended makes one write of the two, in contents, size and blocks |
| `FileRuns.WriteRead` | kernel/file.c:84-118 | what was written through one open file is what another reads at the same offset |
| `OpenFiles.WrittenLinks` | kernel/file.c:102-118 | a write to an inode that is no directory leaves every link count and entry of the disk as it was |
| `Pipe.StepKeepsInv` | kernel/pipe.c:65-132 | every step of every reader and writer keeps the invariant of ring, counters, locks and sleepers |
| `Pipe.RunKeepsInv` | kernel/pipe.c:65-132 | the invariant in every state of every interleaving |
| `Pipe.Fifo` | kernel/pipe.c:83-132 | in every run the bytes read are, in order, a prefix of the bytes written, and nread <= nwrite <= nread + 512 |
| `PipeBytes.RunTold` | kernel/pipe.c:83-132 | in every run the bytes put in are an interleaving of what the writers have moved, and the bytes taken out one of what the readers have in their buffers, each thread in its own order |
| `PipeBytes.PresentCall` | kernel/pipe.c:83-97 | a writer is always putting in the buffer of its latest call |
| `PipeBytes.PutInOrder` | kernel/pipe.c:83-104 | what a writer that never gave up has put in is a prefix of the buffers of its calls, one after the other |
| `PipeBytes.WritesAll` | kernel/pipe.c:101-104 | pipe_write returns n only with the whole buffer in the pipe |
| `PipeBytes.ReadsAll` | kernel/pipe.c:105-132 | pipe_read returns with all it was asked for or with the pipe empty, or killed over an empty pipe |
| `PipeBytes.OneToOne` | kernel/pipe.c:83-132 | with one writer and one reader what the reader got, call after call, is a prefix of the buffers that the writer was given |
| `Pipe.ReadsZeroAtEnd` | kernel/pipe.c:105-132 | a read of at least one byte returns 0 only with the write end closed and everything consumed |
| `Pipe.KilledExitMisses` | kernel/pipe.c:83-104 | the exit of a killed writer misses a wakeup exactly if a reader sleeps |
| `Pipe.NoLostWakeup` | kernel/pipe.c:83-132 | no reader sleeps on a non-empty pipe and no writer on a non-full one while the lock is free, if and only if no writer takes the killed exit over a sleeping reader |
| `Pipe.NotBothAsleep` | kernel/pipe.c:83-132 | readers and writers never sleep together in such runs |
| `Pipe.WakeupLost` | kernel/pipe.c:83-104 | a concrete run in which a reader sleeps on a full pipe |
| `Processes.StepKeepsInv` | kernel/proc.c:208-347 | every step of every CPU keeps the invariant of the process table and the lock handed across context switches |
| `Processes.RunKeepsInv` | kernel/proc.c:208-347 | the invariant in every state of every interleaving of any number of CPUs |
| `Processes.RunningOnOneCpu` | kernel/proc.c:208-286 | whenever ptable.lock is free, a process is RUNNING if and only if exactly one CPU has it as its process |
| `Processes.StacksInUse` | kernel/proc.c:208-286 | a CPU is on the kernel stack of a process only while that is allocated and the process is RUNNING or the CPU holds ptable.lock; no two CPUs share a stack |
| `Processes.ReapSafe` | kernel/proc.c:388-414 | the child that wait reaps is on no CPU, its stack and page table in use by none |
| `Processes.WaitFreesNothingInUse` | kernel/proc.c:388-414 | in every run, wait never frees a kernel stack or page table still in use |
| `Processes.WaitersHaveReason` | kernel/proc.c:388-469 | a process asleep in wait has a child, no zombie child, and is not killed |
| `Processes.ParentsLive` | kernel/proc.c:349-386 | every live or zombie process but init has a live parent |
| `Processes.PidsReapedOnce` | kernel/proc.c:388-414 | no pid is returned by two waits, nor used again after one |
| `Processes.WakeupWakes` | kernel/proc.c:334-347 | after wakeup nobody sleeps on the channel; those that did are RUNNABLE, and every other process is as before |
| `Processes.SleepsOn` | kernel/proc.c:288-327 | sleep puts the caller, and no one else, to sleep on the channel |
| `Processes.KillMarks` | kernel/proc.c:488-504 | after kill the process with that pid is marked and not asleep, and no other process changed |
| `Processes.ExitLeaves` | kernel/proc.c:430-469 | after exit the process is a zombie, its children are of init, and neither its parent nor an init that got a zombie sleeps in wait |
| `Processes.WaitReturns` | kernel/proc.c:388-428 | wait returns the pid of a zombie child and frees its slot if there is one, -1 without children or if killed, and sleeps otherwise |
| `Processes.ForkStarts` | kernel/proc.c:349-386 | the child of fork is RUNNABLE, has the caller as its parent and a pid that no other process has or wait returned |
| `PageTables.SlotsDistinct` | kernel/vm.c:131-170 | two pages reach the same entry if and only if they are the same page of the same address space |
| `PageTables.PrefixStep` | kernel/vm.c:140-142 | the nine-bit indices of the four levels spell out the page number |
| `PageTables.PoppedKeeps` | kernel/kalloc.c:71-82 | taking a free page changes no table and no entry |
| `PageTables.PushedKeeps` | kernel/kalloc.c:17-32 | freeing a page that is no table changes no table and no entry, and the free list holds each free page once |
| `PageTables.AddTableKeeps` | kernel/vm.c:161-167 | a zeroed page becomes a table: the tables stay an unshared tree with the kernel half untouched, and no entry of any page changes |
| `PageTables.SetEntryKeeps` | kernel/vm.c:194-194 | storing an entry changes that page of that address space and no other |
| `AddressSpaces.Vm.constructor` | kernel/kalloc.c:46-47 | no page managed yet |
| `AddressSpaces.Vm.FreeRange` | kernel/kalloc.c:34-43 | exactly the whole pages of the range become free frames, and ownership of all others stays; a panic if and only if a page is outside the managed range |
| `AddressSpaces.Vm.Kalloc` | kernel/kalloc.c:71-82 | the first page of the list, filled; 0 exactly if the list is empty |
| `AddressSpaces.Vm.Kfree` | kernel/kalloc.c:17-32 | the page goes to the head of the list; a panic exactly outside the managed range; the list stays a list if the page was not on it, and each frame keeps one role if the page was handed out |
| `AddressSpaces.Vm.Walk` | kernel/vm.c:131-170 | reaches the entry that a flat table gives for the page; without alloc it finds exactly the present entries and changes nothing; with alloc no entry changes, at most three pages are used, and it fails only when no page is left |
| `AddressSpaces.Vm.MapPages` | kernel/vm.c:172-199 | exactly the pages up to the first obstacle map to consecutive frames with the permissions, all of them on success; a panic exactly at a page already mapped; nothing else changes |
| `Mappings.SweptStep` | kernel/vm.c:257-275 | which pages the sweep of dealloc_uvm has freed, one page further |
| `Mappings.SweptJump` | kernel/vm.c:257-264 | a hole ends the sweep of its 2 MiB region and of no other |
| `Mappings.ReleasedOwned` | kernel/vm.c:252-277 | after dealloc_uvm each mapped frame still belongs to one page of one address space |
| `AddressSpaces.Vm.DeallocUvm` | kernel/vm.c:252-277 | frees page v of its range if and only if every page from where the sweep entered the 2 MiB region up to v is mapped; never a panic, a double free or a change elsewhere |
| `Mappings.RollBack` | kernel/vm.c:293-304 | after a partial alloc_uvm the roll-back restores every entry and frees every page taken |
| `AddressSpaces.Vm.AllocUvm` | kernel/vm.c:280-307 | all or nothing: zeroed pages of their own for the whole range, or every entry as before and only page tables kept; it fails only past the user half or with at most four free pages for each page asked for, and panics only on a range that is partly mapped |
| `AddressSpaces.Vm.SetupUvm` | kernel/vm.c:78-90 | a new address space with no page mapped and the kernel half shared; 0 exactly if no page is left |
| `Teardown.TornAll` | kernel/vm.c:310-327 | after the recursive freeing no table of the space is left and the trees of all others are as they were |
| `AddressSpaces.Vm.FreeEntry` | kernel/vm.c:310-327 | gives exactly the tables of the subtree back, each once |
| `AddressSpaces.Vm.FreeVm` | kernel/vm.c:331-343 | gives back every table of the space and its swept pages, loses the other pages, and touches no other space; a panic exactly on a null table |
| `Teardown.FreesAllIff` | kernel/vm.c:331-343 | every frame of the space is given back if and only if each mapped page lies below sz and has no hole under it in its 2 MiB region |
| `Teardown.NullPageLoses` | kernel/vm.c:257-264 | a space without page 0 loses each page below 2 MiB |
| `Teardown.SmallSpaceLoses` | kernel/vm.c:331-343 | a concrete space with one page mapped from which that frame is lost |
| `Teardown.CopiedBy` | kernel/vm.c:345-372 | the copy maps exactly the pages of the original from page 1 on, with equal flags and contents, to frames of their own that were free |
| `Teardown.FailedBy` | kernel/vm.c:373-375 | after a failed copy everything in use is as before |
| `AddressSpaces.Vm.CopyUvm` | kernel/vm.c:345-376 | an exact copy; or a panic only if a page below sz is missing; or, short of memory, nothing, and then a frame is lost if and only if five pages or more were free before |
| `AddressSpaces.FramesUsed` | kernel/vm.c:345-372 | a copy of k pages has used the root, three tables and k frames at least |
| `MemoryRuns.ForkLoses` | kernel/vm.c:345-376 | a concrete run from boot in which a failed copy_uvm loses a frame |
| `AddressSpaces.Vm.GrowProc` | kernel/proc.c:471-486 | the mapped pages stay exactly those from 0x1000 to the size; on failure as well, if and only if the process did not shrink to exactly 0 with pages mapped from 2 MiB on; it fails only then, past the user half or short of memory, and never panics |
| `MemoryRuns.ShrinkLoses` | kernel/proc.c:471-486 | a concrete run from boot after which the size of a process is not that of what it has mapped |
| `Image.ImageGrow` | kernel/vm.c:280-307 | growing keeps the mapped pages exactly those from page 1 to the size |
| `Image.ImageInBytes` | kernel/vm.c:280-307 | in bytes: every address from 4096 to the size is mapped, and no page beyond |
| `Image.ImageShrink` | kernel/vm.c:252-277 | shrinking to a positive size meets no hole, so it frees its whole range and the image stays exact |
| `Image.ImageZero` | kernel/vm.c:252-277 | shrinking to 0 starts in the hole of the null page and frees exactly the pages from 2 MiB on |
| `Image.ImageCopy` | kernel/vm.c:345-372 | a fork has the image of its parent |
| `ExecImage.LoadUvm` | kernel/vm.c:378-397 | inside the image its panics are unreachable; it succeeds if and only if the file has the bytes, which then stand at the virtual address, and no other byte of any space changes |
| `ExecImage.BytesLoaded` | kernel/exec.c:64-80 | with one more segment loaded, each byte of the image is that of the last segment that covers it, or 0 |
| `ExecImage.Build` | kernel/exec.c:22-95 | for every file: on success the magic number and every header pass their tests, the image is exact (all pages from 0x1000 to two pages past the highest segment, present, writable and for the user all but the guard) and each of its bytes is the one the headers give it; it fails only on a bad file, past the user half or short of memory, and then nothing in use changed; no panic |
| `Elf.ElfRoundTrip` | kernel/elf.h:21-37 | struct elf_header, its fields in their order, reads back from its 64 bytes |
| `Elf.ProgRoundTrip` | kernel/elf.h:68-77 | struct prog_header, its fields in their order, reads back from its 56 bytes |
| `Elf.HeadersBack` | kernel/exec.c:22-47 | exec reads from a file exactly the headers that were encoded into it, where ph_off says |
| `Elf.MagicBytes` | kernel/exec.c:29-31 | the magic number is that of the bytes 7F 45 4C 46 |
| `Elf.TopMax` | kernel/exec.c:64-67 | the size is the highest end of a loaded segment, or one page |
| `Elf.SegByteLast` | kernel/exec.c:78-80 | where segments overlap the last one gives the byte |
| `UserBytes.PageByteWith` | kernel/vm.c:421-441 | a copy into a page of words changes exactly the bytes it covers |
| `UserBytes.StoredWrote` | kernel/vm.c:378-441 | a copy into the frame of a page changes exactly those bytes of that page of that space, seen through the page tables of all spaces |
| `UserBytes.CopyOut` | kernel/vm.c:409-441 | writes the whole range, through the page tables, if and only if each of its pages is a user page; otherwise the part before the first page that is not; no other byte of any space changes |
| `ArgStack.GuardStops` | kernel/exec.c:94-125 | a write that ends in the stack page or the guard page can be made if and only if it starts in the stack page |
| `ArgStack.FitsIff` | kernel/exec.c:98-125 | the arguments fit if and only if there are at most 32 and the strings, padded to 8 bytes each, the array with its null and argc take no more than 4096 bytes |
| `ArgStack.StackDone` | kernel/exec.c:112-125 | strings, argv, its null and argc lie in order and without overlap in the one page above the guard, with rsp 8 modulo 16 as section 3.2.2 of the System V AMD64 psABI asks at function entry |
| `ArgStack.PushArgs` | kernel/exec.c:96-125 | succeeds if and only if there are at most 32 arguments and all fits in the last page, and then argv[i] points to a copy of the i-th string in the new space and no byte below that page changed; in either case nothing but bytes of the new space changed |
| `ExecImage.Exec` | kernel/exec.c:22-161 | for every file and argument list: a new space with the program at its addresses, the guard page and the argument stack; or everything in use as before, and that only on a bad file, arguments that do not fit, an image past the user half or a shortage of memory; a bad file and such arguments always fail |
| `ExecImage.ExecProgram` | kernel/exec.c:22-161 | for every program given by its encoded headers: on success each loaded segment is good, its file_sz bytes stand at its vaddr, all other bytes below the stack are 0, and the size is the highest vaddr + mem_sz in whole pages and two more; with good segments it fails only for arguments that do not fit, a size past the user half or a shortage of memory |
| `ShellGrammar.TokensOfRender` | user/nsh.c:226-265 | the tokens of a printed token sequence are that sequence |
| `ShellGrammar.LineBack` | user/nsh.c:297-387 | parsing the tokens of a fully parenthesised command, up to the end or a closing parenthesis, gives it back |
| `ShellGrammar.RoundTrip` | user/nsh.c:285-295 | parsing the printed text of any command tree with fewer than ten words per command gives back that tree |
| `ShellLaws.PlainCommand` | user/nsh.c:322-372 | words and redirections in any order are the words in the redirections in their order, "<" for input and both ">" and ">>" for output; ten words or more are refused |
| `ShellLaws.TokensOfSpaced` | user/nsh.c:226-265 | the tokens of a line do not depend on the white space, which only two words, or ">" before another, need |
| `ShellLaws.PlainLine` | user/nsh.c:285-295 | the same for a line of text with any white space |
| `ShellLaws.LsOut` | user/nsh.c:322-372 | "ls > out" is ls with its output in out |
| `ShellLaws.NeatLine` | user/nsh.c:297-387 | parsing a command printed with parentheses only where they are needed gives it back: "|" and ";" nest to the right, "&" binds what is before it |
| `ShellLaws.NeatRoundTrip` | user/nsh.c:285-295 | the round trip of any command tree with that printing, as text |
| `ShellLaws.LeftoverRefused` | user/nsh.c:285-295 | a closing parenthesis too many is refused |
| `ShellLaws.UnclosedRefused` | user/nsh.c:374-387 | an opening parenthesis too many is refused |
| `ShellLaws.NoFileRefused` | user/nsh.c:352-372 | a redirection without a file is refused |
| `ShellLaws.WordChars` | user/nsh.c:222-223 | which characters make up words |
| `Shell.Parser.constructor` | user/nsh.c:285-286 | the cursor at the start of a NUL-terminated line |
| `Shell.Parser.Peek` | user/nsh.c:267-275 | looks past white space without losing a token |
| `Shell.Parser.GetToken` | user/nsh.c:226-265 | returns the next token of the text and moves past it; for a word its maximal span |
| `Shell.Parser.ParseRedirs` | user/nsh.c:352-372 | consumes exactly the redirections that the grammar has there, or panics where it has none |
| `Shell.Parser.ParseArgs` | user/nsh.c:326-349 | the words and redirections of one command, or the panic that the grammar gives |
| `Shell.Parser.ParseExec` | user/nsh.c:322-350 | one command or block, as the grammar has it |
| `Shell.Parser.ParseBlock` | user/nsh.c:374-387 | one parenthesised line with its redirections; the panic for a missing open parenthesis is unreachable |
| `Shell.Parser.ParsePipe` | user/nsh.c:312-320 | a pipeline, nested to the right |
| `Shell.Parser.ParseLine` | user/nsh.c:297-310 | a list with its background marks, as the grammar has it; it ends on every text |
| `Shell.NullTerminate` | user/nsh.c:389-418 | writes a NUL exactly at the ends of the words of the command |
| `Shell.EndsOfWords` | user/nsh.c:389-418 | no NUL lands inside a word |
| `Shell.ReadsBack` | user/nsh.c:389-418 | after null_terminate every argument and file name reads as exactly its token |
| `Shell.Parser.ParseCmd` | user/nsh.c:285-295 | for every text, the strings that argv and the file names point to make up exactly the command that the grammar gives, or it panics as the grammar does |
| `Shell.ParsePrinted` | user/nsh.c:285-295 | the parser run on the printed text of a command leaves exactly that command |
| `ShellLaws.ParseTyped` | user/nsh.c:285-295 | the parser run on a command as typed, with any white space and only the parentheses needed, leaves exactly that command |

## Left out

- Calls of the file system, the page tables and the descriptors are atomic steps; interleavings
  inside `bget`, between its release of the cache lock and the sleep lock it waits for, and inside
  `kalloc` and `kfree` are not modelled.
- Spin locks and sleep locks themselves, `push_cli` and the interrupt flag: locks are held or not,
  and waiting is an outcome or a step.
- In `Processes` the kernel stack and the page table of a process are marks on it; the pages are in
  `AddressSpaces`.
- Pipe counters and pids are unbounded; their 64-bit wrap-around is not modelled.
- Heap.Allocator.Malloc: leaves out the requests that no free block satisfies, that do not fit the int of `sbrk` and that the kernel grants all the same; `Heap.GrowthExactIffFits` shows that this is where the heap and the break part. `sbrk` is taken to extend the break in place, at a multiple of 16.
- Kernel-half mappings: `io_remap`, the direct map and large pages. Walks are of the user half, and the upper half of each top-level table is only shown unchanged.
- AddressSpaces.Vm.Walk: is of the user half; so are `map_pages` and everything above it.
- AddressSpaces.Vm.MapPages: is of the user half, for the same reason.
- AddressSpaces.Vm.FreeRange: adds pages that are not managed yet, as `kinit` does with the ranges of the memory map, which are taken to be disjoint.
- BufferCache.Cache.Brelse: asks that a buffer that was changed is marked dirty, as every caller does; otherwise its change would be forgotten with the buffer.
- FileSystem.Fs.Bmap: takes block numbers up to the first one past the end of the file, which is all that `readi` and `writei` ask for; a file has no holes.
- Heap.Allocator.MoreCore: leaves out the same requests as `Heap.Allocator.Malloc`.
- Heap.Allocator.Search: leaves out the same requests as `Heap.Allocator.Malloc`.
- ExecImage.Build: takes files with fewer than 0x8000 program headers, since the `short` that counts them would wrap around, and plain files; the file is the bytes that `readi` gives for it. Its loop counters are unbounded otherwise.
- ExecImage.ExecProgram: takes files below 2^64 bytes whose headers do not wrap around the end of the address space; any other file is a case of `ExecImage.Exec`.
- ExecImage.Exec: leaves out the registers, the process name and the release of the old space, which is `AddressSpaces.Vm.FreeVm`; files and arguments as for `ExecImage.Build` and `ArgStack.PushArgs`.
- ArgStack.PushArgs: counts an argument longer than the whole address space, whose address would wrap around, as a failed copy.
- UserBytes.CopyOut: takes ranges of the user half.
- SysFile.MadeDisk: asks for a linked parent; `SysFile.CreateCounts` shows that it has to.
- OpenFiles.Kernel.SysOpen: asks for a linked parent when it creates, for the same reason.
- OpenFiles.Kernel.SysMake: asks for a linked parent, for the same reason.
- Disks with 0x7FFF inodes or more, on which a link count can overflow; `mkfs` makes 96.
- `mkfs` copying host files into the image, with its own `add_file`: the image that `MkfsImage` shows well formed is the one before these are added.
- Device files: a read or write is handed to the device, whose routines are parameters.
- Shell commands are values: the redirection nodes that the source wraps around a command node while it is still being filled are added when it is complete, so the aliasing of the two nodes is not captured. `run_cmd`, the prompt loop and the other user programs are left out.
- Hardware and assembly: boot, APIC, IDT, GDT, TSS, MSRs, ports, serial line, keyboard, the context switch itself, system call entry.
- The framebuffer, console and number formatting; `kthread_init`; multiboot tags.
