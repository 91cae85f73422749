# xv6: storage, processes, memory and two small languages

A model of the xv6 teaching kernel and parts of its user library, with proofs about it, in Dafny.

**Storage.** `BufferCache` is the write-back cache of bio.c over a disk on which each sector write is atomic; `Ide` is
the request queue below it, shown to act like that disk. `Recovery` and `Log` are the redo log of log.c: the log object
keeps a history of every disk state, and its invariant says what each of them recovers to. `Layout`, `FsImage`,
`FileBytes` and `FileSystem` are the allocator, the block map and the file operations of fs.c on top of the log, and
`File` is filewrite, which cuts a long write into transactions. `Dirs`, `DirFiles`, `Paths` and `Icache` are
directories, path names and inode references.

**The tree of names.** `Links` is the accounting of link counts in sysfile.c, over a table of nodes. `DiskLinks` says
which table the inode blocks and the bytes of the directories spell out. `DiskInodes`, `DiskNodes`, `Creation` and
`Sysfile` are link, unlink, create and close on the disk, each as the transaction it is in the source, with its log and
block budget, and prove that every image they commit spells out a table with the right counts. `Namei` is the path walk
over the same disk, `Inodes` is iput, and `Mkfs` is the disk that it all starts from.

**Processes.** `Proc` is the process table with wait, waitpid, exit and kill; a step is one stretch of code under
ptable.lock. `SleepWakeup` is sleep and wakeup with their locks, one atomic action per step. `Scheduler` is the priority
scheduler beside the round-robin loop it replaced. `Pipe` is the bounded ring under any interleaving.

**Memory.** `Malloc` is the free-list allocator of umalloc.c. `PageTables`, `Pages` and `Vm` are two-level page tables,
the frame allocator below them and the user half of vm.c, with every frame accounted for.

**Languages.** `ShellGrammar`, `ShellWords`, `Shell` and `ShellParser` are the shell's scanner and recursive-descent
parser, and `ShellSyntax` is the grammar they recognize. `Grep` is the regular expression matcher.

## How it is put together

- Code that changes things in place is a class whose methods follow the source's loops and branches. What a method does
  is said by functions of the old and new state, and what the source promises is proved of those functions and of the
  invariants.
- A panic is a precondition or, where the invariants rule it out, proved unreachable. An error return is a result.
- Concurrency is a set of steps: every step is proved to keep the invariants, from any state that satisfies them.
- Crashes: `Log.Durable` relates every disk state of a run to the image it recovers to, and `Log.CrashAnywhere` adds any
  number of interrupted recoveries.

Where the code and its documentation differ the model follows the code: `>>` opens its file as `>` does, waitpid
returns at once for an unused entry that still carries the pid, and the last page that allocuvm maps can be missing.

## Model

| member | source | states |
|---|---|---|
| BufferCache.Cache.constructor | xv6-lab1/bio.c:38-56 | the list links all buffers in a circle through the head, no buffer holds a sector, and cached contents, disk and flat view agree |
| BufferCache.MoveToFrontLinked | xv6-lab1/bio.c:125-132 | the six pointer assignments turn a circle that spells out `order` into one that spells out the released buffer followed by the others in their order |
| BufferCache.MoveToFrontOrder | xv6-lab1/bio.c:125-132 | so each buffer stays on the list once, and the list stays sorted by the time of release |
| BufferCache.DescendingIsPermutation | xv6-lab1/bio.c:49-55 | after binit every buffer is on the list exactly once |
| BufferCache.Cache.Lookup | xv6-lab1/bio.c:69-80 | the buffer of that sector, or the list's head exactly when no buffer has it |
| BufferCache.Cache.Victim | xv6-lab1/bio.c:82-92 | the buffer recycled is idle and clean, and among such buffers it is the one released longest ago; the panic is unreachable while one exists |
| BufferCache.Cache.Bget | xv6-lab1/bio.c:61-93 | sleeps exactly when the sector's buffer is held; otherwise the buffer returned is now held for that sector, the cached one if there is one and else the clean idle buffer released longest ago; no other buffer changes, and two buffers never have the same sector |
| BufferCache.Cache.Iderw | xv6-lab1/ide.c:121-155 | the transfer at once: a dirty buffer is written to its sector and becomes clean, any other is filled from it; the view of clients never changes (Ide.Queue.Transfer and Ide.HistoryServe tie this to the queue) |
| BufferCache.Cache.Bread | xv6-lab1/bio.c:95-105 | the buffer holds the current contents of the sector: the last data put there, whether or not it has reached the disk |
| BufferCache.Cache.Bwrite | xv6-lab1/bio.c:107-115 | exactly one disk state is added to the history: the old disk with this sector set to the buffer's data |
| BufferCache.Cache.Brelse | xv6-lab1/bio.c:117-138 | the buffer is no longer held, becomes the most recently released, and list, contents and release order stay consistent |
| BufferCache.Cache.Pin | xv6-lab1/log.c:180 | marking a held buffer dirty keeps it in the cache until it is written, and changes neither disk nor flat view |
| BufferCache.CleanSector | xv6-lab1/bio.c:82-91 | a sector that is neither held nor in a dirty buffer reads the same from the cache as from the disk |
| BufferCache.RoomMeansAvailable | xv6-lab1/bio.c:82-92 | with fewer distinct sectors held or pinned than there are buffers, an idle clean buffer exists |
| Ide.Queue.Iderw | xv6-lab1/ide.c:137-152 | the request joins the end of the linked queue, its process is asleep exactly while it is queued, and the disk is working on the first request |
| Ide.Queue.Last | xv6-lab1/ide.c:139-143 | the pointer walk ends at the last request of the queue |
| Ide.Queue.Ideintr | xv6-lab1/ide.c:91-119 | the oldest request is carried out and its process wakes: its buffer and the disk are as after an atomic transfer, except that a read on which the disk reports an error is called valid with the data it had; no other buffer changes |
| Ide.Queue.Change | xv6-lab1/ide.c:126-137 | a buffer that is not queued may change at any time: queue, disk and history are not disturbed |
| Ide.HistoryServe | xv6-lab1/ide.c:91-119 | after any sequence of requests the disk is what carrying them out one after the other in the order they were made would leave, and each got what it would have got |
| Ide.Queue.Transfer | xv6-lab1/ide.c:125-155 | on an idle disk, iderw and its interrupt together are the atomic transfer of the buffer cache |
| Ide.Queue.Progress | xv6-lab1/ide.c:149-152 | whoever sleeps in iderw has a request in the queue and the disk is busy with the first one |
| Recovery.InstalledAt | xv6-lab1/log.c:68-82 | after install_trans a sector holds its log copy if it was listed and its old contents otherwise |
| Recovery.InstallStepKeeps | xv6-lab1/log.c:68-82 | stopping install_trans after any number of blocks leaves a disk that still recovers to the same image |
| Recovery.CommitPointAt | xv6-lab1/log.c:98-113 | one header write with a list of sectors makes each home sector recover to its log copy if it is listed and to its own contents if not |
| Recovery.EmptyHeader | xv6-lab1/log.c:115-122 | a disk with an empty header recovers to its own home sectors |
| Recovery.RecoveryStepKeeps | xv6-lab1/log.c:115-122 | recovery cut off after any sector write leaves a disk that recovers to the same image |
| Recovery.RecoveryCompletes | xv6-lab1/log.c:115-122 | completed recovery leaves exactly that image in the home sectors and an empty header |
| Recovery.RepeatedCrashes | xv6-lab1/log.c:115-122 | however often recovery is cut off, at whatever writes, the recovery that completes leaves what the first would have left |
| Log.CommitState | xv6-lab1/log.c:136-142 | with every logged block in its slot, the first header write makes the disk recover to exactly what clients see |
| Log.UncommittedRecovers | xv6-lab1/log.c:159-181 | until that header write the disk recovers to its home sectors, which no log_write touches |
| Log.CrashAnywhere | xv6-lab1/log.c:69-181 | in any run of transactions, a crash after any sector write followed by any number of interrupted recoveries ends in exactly one committed image, and later crashes never in an earlier one |
| Log.Log.constructor | xv6-lab1/log.c:53-66 | mounting recovers: the one committed image is what the disk recovers to, and every intermediate disk recovers to it too |
| Log.Log.ReadHead | xv6-lab1/log.c:84-96 | the in-memory list is the one in the header block |
| Log.Log.WriteHead | xv6-lab1/log.c:98-113 | one write, of the header alone, which then holds the number of sectors and the sectors in that order |
| Log.Log.InstallTrans | xv6-lab1/log.c:68-82 | the disks passed through are exactly the successive installations, one home sector at a time, and no buffer stays pinned |
| Log.Log.RecoverFromLog | xv6-lab1/log.c:115-122 | the log ends empty and valid with the recovered image as its only commit |
| Log.Log.BeginTrans | xv6-lab1/log.c:124-133 | sleeps exactly while a transaction is open and otherwise opens one; the log's invariant, with its crash guarantee, holds |
| Log.Log.CommitTrans | xv6-lab1/log.c:135-149 | what clients see does not change and becomes the next commit; of the writes, the header write is the one from which on a crash yields the new image; an empty transaction writes nothing |
| Log.Log.Bread | xv6-lab1/log.c:155 | a client reads the latest logged contents of a sector, and neither its view nor the set of pinned sectors changes |
| Log.Log.LogWrite | xv6-lab1/log.c:159-181 | the transaction lists the sector once, however often it is logged (absorption); the buffer is pinned, its contents are in the log, nothing is committed and clients see no change |
| Log.Log.LogAndRelease | xv6-lab1/log.c:154-158 | the idiom modify, log_write, brelse changes clients' view in that block and nowhere else, within the log's capacity |
| Log.Log.LoggedSize | xv6-lab1/log.c:164-165 | the number of logged sectors equals the number of pinned buffers |
| Log.Log.LastCommit | xv6-lab1/log.c:124-149 | between transactions clients see exactly the last commit |
| Layout.Regions | xv6-lab1/fs.h:39-46 | super block, inode blocks, bitmap and data never overlap |
| Layout.PutDinodeSame | xv6-lab1/fs.h:26-34 | an inode written into its block reads back unchanged |
| Layout.PutDinodeOther | xv6-lab1/fs.h:36-40 | writing one inode leaves the other seven of its block alone |
| Layout.PutBit | xv6-lab1/fs.c:64-66 | switching one bitmap bit switches that bit and no other |
| Layout.DinodeLayout | xv6-lab1/fs.h:26-34 | the fields of an inode are little-endian numbers at their places in its 64 bytes |
| Layout.BitLayout | xv6-lab1/fs.c:64-66 | a block's bit is bit b modulo 8, lowest first, of byte b / 8 |
| FsImage.AllocKeeps | xv6-lab1/fs.c:65-69 | marking and zeroing a free block keeps every bit set exactly for metadata and owned or just-allocated blocks, and changes no file |
| FsImage.FreeKeeps | xv6-lab1/fs.c:90-92 | clearing the bit of a block that nobody references keeps the same equivalence |
| FsImage.GrowDirect | xv6-lab1/fs.c:362-364 | a new direct block or table gets exactly one owner, is zero, and no other block of any file moves or changes |
| FsImage.GrowEntry | xv6-lab1/fs.c:373-378 | the same for a new entry of the indirect table; the table is right because it started out zero |
| FsImage.DataWriteKeeps | xv6-lab1/fs.c:482-483 | writing a data block owned by one position keeps ownership and bitmap and every other file |
| FsImage.SyncedUpdate | xv6-lab1/fs.c:200-217 | after iupdate the disk copy of that inode is the cached one and the others are as before |
| FsImage.UnlinkAll | xv6-lab1/fs.c:398-415 | taking all positions of an inode out leaves every other inode's blocks owned exactly as before |
| FsImage.SameFileSameContent | xv6-lab1/fs.c:434-458 | a file whose blocks are the same with the same data has the same bytes |
| FileBytes.WrittenContent | xv6-lab1/fs.c:462-492 | block by block, the loop of writei adds up to one write into a string of bytes |
| FileBytes.SpliceAt | xv6-lab1/fs.c:460-492 | a later read sees the bytes written where they were written and the old ones everywhere else |
| FileBytes.CoveredStep | xv6-lab1/fs.c:479-485 | each round of the loop touches one more block, and it ends at a block boundary or at the end |
| FileBytes.ReadChunk | xv6-lab1/fs.c:451-456 | each round of readi copies the next stretch of the file's bytes, direct or indirect |
| FileBytes.GrowByTwice | xv6-lab1/fs.c:356-384 | the blocks needed to grow in two steps are those needed to grow in one |
| FileSystem.FindClear | xv6-lab1/fs.c:63-65 | the first clear bit of a bitmap block, or none |
| FileSystem.WriteRefusedMeans | xv6-lab1/fs.c:474-477 | the 32-bit tests of writei refuse exactly the writes that start past the end or would end past the largest file |
| FileSystem.FileSystem.constructor | xv6-lab1/log.c:53-66 | a recovered log over a consistent image is a file system ready for use |
| FileSystem.FileSystem.Begin | xv6-lab1/log.c:124-133 | the new transaction has logged nothing and clients see the same image |
| FileSystem.FileSystem.Commit | xv6-lab1/log.c:135-149 | commits what clients see, or nothing if nothing was logged; every image committed so far satisfies the ownership and bitmap invariant, with the inodes on disk |
| FileSystem.FileSystem.Readsb | xv6-lab1/fs.c:26-35 | the two super block fields in use are those of the image |
| FileSystem.FileSystem.Bzero | xv6-lab1/fs.c:37-47 | one block of the view becomes zero |
| FileSystem.FileSystem.Balloc | xv6-lab1/fs.c:51-76 | the lowest free data block below the log is marked and zeroed; nothing else changes; the panic is unreachable while a block is free |
| FileSystem.FileSystem.Bfree | xv6-lab1/fs.c:78-95 | an owned block's bit is cleared, so `freeing free block` cannot occur |
| FileSystem.FileSystem.Bmap | xv6-lab1/fs.c:354-384 | the block of that position; if there was none it is fresh and zero, all other blocks of the file and all other files are as before, and every block still has one owner |
| FileSystem.FileSystem.FreeDirect | xv6-lab1/fs.c:398-403 | frees exactly the blocks in the direct positions |
| FileSystem.FileSystem.FreeEntries | xv6-lab1/fs.c:405-412 | frees exactly the blocks named in the indirect table, while the table itself stays |
| FileSystem.FileSystem.Itrunc | xv6-lab1/fs.c:386-419 | exactly the blocks the inode owned become free, the inode is empty in memory and on disk, and no other file changes |
| FileSystem.FileSystem.FreeInode | xv6-lab1/fs.c:327-329 | exactly the blocks the inode owned become free, the inode is empty and of type 0 in memory and on disk, and no other inode or file changes |
| Inodes.Iput | xv6-lab1/fs.c:317-336 | one reference fewer; if it was the last one to an inode without links, exactly its blocks are freed, the inode is free, no other file changes and all link counts stay right; otherwise nothing else changes |
| FileSystem.FileSystem.Iupdate | xv6-lab1/fs.c:200-217 | the inode on disk becomes the one in memory and no file's bytes change |
| FileSystem.FileSystem.Writei | xv6-lab1/fs.c:460-492 | the bytes become content[..off] + src + content[off+n..], no other file changes, blocks below the size are allocated, disk and cached inode agree, and both the sectors logged and the blocks allocated are bounded by the blocks covered; a refused write changes nothing |
| FileSystem.FileSystem.Readi | xv6-lab1/fs.c:432-458 | exactly the requested slice of the file's bytes (cut at its end), with no allocation and no change |
| File.AcceptedEnd | xv6-lab1/file.c:129-134 | the chunk that writei refuses is the first that does not fit in the largest file |
| File.SpliceTwice | xv6-lab1/file.c:129-149 | two adjacent writes are one write |
| File.ChunkBudget | xv6-lab1/file.c:122-128 | with one bitmap block, a chunk of 1536 bytes at any offset into any file logs at most seven sectors, within the log and the cache |
| File.OpenFile.Read | xv6-lab1/file.c:95-112 | the slice of the file at the offset, which moves past it |
| File.OpenFile.WriteTrans | xv6-lab1/file.c:136-141 | one chunk in one transaction: spliced in and committed, or refused with no change |
| File.OpenFile.Write | xv6-lab1/file.c:115-155 | the chunks add up to one write of as many whole chunks as fit; the result is n exactly when all fit; the last commit before holds the old bytes, and every image committed on the way holds the file up to a chunk boundary and the other files unchanged; log_write and bget never panic |
| File.CrashedWrite | xv6-lab1/file.c:129-149 | a crash at any moment of a long write, from before its first commit to after its last, however often recovery is cut off, leaves the file with some leading chunks of the write and none of the others, and every other file with its bytes |
| File.CrashedConsistent | xv6-lab1/log.c:115-122 | every disk that a crash and any number of interrupted recoveries lead to satisfies the ownership and bitmap invariant |
| Dirs.AddGets | xv6-lab1/fs.c:531-559 | dirlink adds one name to the finite map a directory stands for and keeps names unique |
| Dirs.ClearGets | xv6-lab1/sysfile.c:211-213 | clearing an entry removes one name from the map and keeps the others |
| Dirs.CutField | xv6-lab1/fs.c:553 | strncpy stores exactly the first 14 bytes of a name |
| Dirs.DecodeEncode | xv6-lab1/fs.h:51-54 | an entry written as 16 bytes reads back unchanged |
| Dirs.EntryLayout | xv6-lab1/fs.h:51-54 | an entry is a little-endian inode number and a name that ends at the first 0 or after 14 bytes |
| Dirs.WriteEntry | xv6-lab1/fs.c:553-556 | writing 16 bytes at an entry's offset in the directory's file changes or appends that one entry |
| Dirs.Namecmp | xv6-lab1/fs.c:497-501 | 0 exactly when the two names agree on their first 14 bytes |
| DirFiles.Dirlookup | xv6-lab1/fs.c:503-529 | reading the directory's file entry by entry with readi: the inode number that the map gives the name cut to 14 bytes, 0 if none, and the offset of its entry; nothing changes |
| DirFiles.Dirlink | xv6-lab1/fs.c:531-559 | refuses exactly the names that are there; otherwise, through writei, the map that the directory's bytes spell out gains one pair, names stay unique and no other file changes |
| DirFiles.Dirclear | xv6-lab1/sysfile.c:211-213 | the 16 zero bytes written over an entry take one pair out of that map and leave the rest, and no other file changes |
| Paths.Skipelem | xv6-lab1/fs.c:564-599 | the next element cut to 14 bytes, and the rest without leading slashes |
| Paths.ElemsSplit | xv6-lab1/fs.c:564-599 | repeating skipelem equals splitting the path at every slash and dropping the empty pieces |
| Icache.Cache.Iget | xv6-lab1/fs.c:219-253 | one live slot per inode; this inode gains one reference, no other changes; the panic is unreachable while a slot is empty |
| Icache.Cache.Idup | xv6-lab1/fs.c:255-264 | one more reference to that inode |
| Icache.Cache.Iput | xv6-lab1/fs.c:334-335 | one reference fewer to that inode, none to others; its slot is free again at zero |
| Links.RootOnly | xv6-lab1/mkfs.c:107-118 | the root directory alone, with free entries after its dots, satisfies all link-count invariants |
| Links.LinkKeeps | xv6-lab1/sysfile.c:135-147 | after a link every count equals the number of entries naming the inode exactly when the directory written to is itself linked |
| Links.CreateKeeps | xv6-lab1/sysfile.c:254-272 | the same for creating a file |
| Links.MkdirKeeps | xv6-lab1/sysfile.c:254-272 | the same for creating a directory, with its . and .. |
| Links.RemovedParent | xv6-lab1/sysfile.c:254-272 | a run in which they do not: mkdir, then unlink while somebody has the directory open, then create in it: a file with one link that no linked directory names |
| Links.EmptyOnce | xv6-lab1/sysfile.c:204-209 | an empty directory that is named has exactly one link, so removing it makes it unlinked |
| Links.ParentTwice | xv6-lab1/sysfile.c:214-217 | the parent of a directory has another link besides that directory's .., so it stays linked |
| Links.UnlinkKeeps | xv6-lab1/sysfile.c:211-222 | after an unlink the counts are right exactly when the directory written to is linked |
| Links.PutKeeps | xv6-lab1/fs.c:321-333 | freeing an inode without links keeps all counts right |
| Links.NamedOther | xv6-lab1/sysfile.c:198-205 | where removed directories are empty, a name other than the dots is in a linked directory and names another inode in use with a link, so the panic on the link count is unreachable |
| Links.UnlinkRemoved | xv6-lab1/sysfile.c:204-222 | unlink leaves removed directories empty: the one it removes was, and the parent keeps a link |
| Links.EntryInUse | xv6-lab1/fs.c:625-630 | whatever a linked directory names, . and .. included, is in use and has a link |
| DiskInodes.Ilock | xv6-lab1/fs.c:282-297 | the inode in memory is the one on disk, and nothing changes |
| DiskInodes.SetMeta | xv6-lab1/sysfile.c:135-136 | new device numbers and link count are in memory and on disk, one inode block is logged, and no other inode or file changes |
| DiskInodes.Ialloc | xv6-lab1/fs.c:175-198 | the lowest inode of type 0 becomes an inode of the type asked for without links, device numbers, bytes or blocks, on disk, and no other changes; it panics exactly if every inode is in use |
| DiskLinks.OneNode | xv6-lab1/fs.h:32-54 | an operation that leaves the other files alone changes one node of the table that the inode blocks and the bytes of the directories spell out |
| DirFiles.EntryCosts | xv6-lab1/fs.c:462-492 | writing an entry logs at most one sector besides the bitmap, the inode block and the indirect table, and allocates no more blocks than the entry needs |
| DiskNodes.AddName | xv6-lab1/fs.c:531-559 | dirlink adds one entry to one node of that table, at that cost, or changes nothing |
| DiskNodes.IsDirEmpty | xv6-lab1/sysfile.c:162-176 | true exactly when the directory's bytes hold nothing but the dots |
| DiskNodes.Release | xv6-lab1/fs.c:321-333 | the node becomes free, its blocks are freed, and no other node or file changes |
| DiskNodes.KeptContent | xv6-lab1/sysfile.c:113-277 | files that a system call leaves alone keep every byte |
| DiskNodes.Finish | xv6-lab1/log.c:135-149 | if the link counts on disk are right in what is committed and in every earlier commit, they are right in every commit |
| Creation.MakeDots | xv6-lab1/sysfile.c:264-266 | the new directory holds exactly . and .., for one new block and at most two sectors logged besides the bitmap and the inode blocks |
| Creation.CreateInode | xv6-lab1/sysfile.c:234-277 | an existing inode is given only to open, and only if it is a file, and nothing changes; otherwise the table is that of Links with a free inode linked in, which has the type and device numbers asked for, one link and, unless a directory, no bytes and no blocks; no inode but these two changes; at most seven sectors are logged |
| Sysfile.LinkInode | xv6-lab1/sysfile.c:135-160 | a failed link puts the count back and changes no node; otherwise the count is one higher and the entry there; at most five sectors are logged |
| Sysfile.Link | xv6-lab1/sysfile.c:114-160 | succeeds exactly for a non-directory, a directory found and a new name; no file but that directory changes, and the linked inode only in its count; the counts decoded from the inode blocks equal the entries decoded from the directories' bytes, now and in every commit, exactly if that directory has a link itself |
| Sysfile.UnlinkInode | xv6-lab1/sysfile.c:178-232 | refuses exactly the dots, missing names and directories with names in them, and then changes no node; otherwise the entry and the links go; at most six sectors are logged, which leaves room to free the inode |
| Sysfile.Unlink | xv6-lab1/sysfile.c:178-232 | the same as a transaction, with the inode freed after its last link and reference; no other file changes; the counts on disk stay right in every commit, whatever happens |
| Sysfile.Create | xv6-lab1/sysfile.c:234-277 | create as the transaction of open, mkdir and mknod: the new inode, with the fields asked for, is the one in the last commit, and no file but the directory changes; the counts on disk stay right in every commit exactly if the name was there or the parent has a link |
| Sysfile.Close | xv6-lab1/file.c:75-77 | the last iput frees an inode without links in a transaction of its own, no other file changes, and the counts on disk stay right in every commit |
| Sysfile.WriteChunk | xv6-lab1/file.c:136-141 | a transaction of filewrite changes no node, so the counts on disk stay right in every commit |
| Sysfile.CrashedRight | xv6-lab1/log.c:115-122 | on every disk that a crash and any number of interrupted recoveries lead to, the link counts in the inode blocks equal the entries in the bytes of the directories |
| Sysfile.Mount | xv6-lab1/log.c:53-66 | such a disk, mounted, is ready for all of these again |
| Mkfs.Balloc | xv6-lab1/mkfs.c:233-247 | a bitmap block with exactly the first bits set |
| Mkfs.RootedRight | xv6-lab1/mkfs.c:86-155 | an image with the super block, the root and the bits of the blocks in use satisfies the ownership and bitmap invariant, with the right link counts |
| Mkfs.Mkfs | xv6-lab1/mkfs.c:86-155 | mkfs without files makes such an image, with the fields of its super block |
| Namei.WalkParentNext | xv6-lab1/fs.c:614-631 | stopping one element early, seen from the front, is looking up all elements but the last |
| Namei.WalkLinked | xv6-lab1/fs.c:614-631 | a walk from an inode with links never reaches ilock's panic, and every inode it comes to has links, so its iputs free nothing |
| Namei.Namex | xv6-lab1/fs.c:601-637 | reading every directory from its bytes on disk, equals folding lookup over the path's elements; on success the result has one more reference, on failure no reference has changed, and a panic is exactly that of ilock on an inode not in use |
| Namei.LinkedName | xv6-lab1/sysfile.c:143-147 | after a link the name leads to the inode, and every other name in every directory leads where it did |
| Namei.CreatedName | xv6-lab1/sysfile.c:254-272 | after create the name leads to the new inode, a new directory's dots to itself and its parent, and every other name where it did |
| Namei.UnlinkedName | xv6-lab1/sysfile.c:211-213 | after an unlink the name leads nowhere, and every other name leads where it did |
| Proc.BootGood | xv6-lab1/proc.c:81-106 | the table userinit leaves satisfies every invariant and no counter is ahead |
| Proc.MovesKeep | xv6-lab1/proc.c:494-502 | any step that only wakes or dispatches processes keeps pids distinct, the tree, the reaping history and the waiters' reasons to sleep |
| Proc.AllocKeeps | xv6-lab1/proc.c:48-53 | the new pid is one nobody ever had, and nobody is counted as waiting for it |
| Proc.ForkKeeps | xv6-lab1/proc.c:148-163 | the child's parent is alive and older |
| Proc.ForkFails | xv6-lab1/proc.c:142-147 | a fork that fails after allocproc is harmless exactly when nobody sleeps in waitpid on the entry |
| Proc.ReapKeeps | xv6-lab1/proc.c:237-251 | a zombie's pid is reaped for the first time, with the status it gave to exit, and nobody loses a parent |
| Proc.ExitKeeps | xv6-lab1/proc.c:190-218 | after exit every started process still has a live older parent, nobody sleeps in wait with a zombie child, and nobody sleeps in waitpid on the process that exited |
| Proc.ExitSlack | xv6-lab1/proc.c:193-214 | which counters run ahead of their sleepers because of an exit: those of the parent, and of init if it inherits a zombie, when they have sleepers; all others keep their distance |
| Proc.PassesSettle | xv6-lab1/proc.c:504-515 | after one wakeuppid the counter is the old counter minus the sleepers, and stays so |
| Proc.ExitLoopEnds | xv6-lab1/proc.c:206-208 | exit's wake loop ends exactly when the counter equals the number of sleepers on entry |
| Proc.KilledWaiter | xv6-lab1/proc.c:535-541 | after a process that sleeps in waitpid on another has been killed, the exit of that other never leaves its wake loop |
| Proc.StrandedWaiter | xv6-lab1/proc.c:142-147 | a run in which it is not: a process sleeps in waitpid on the pid of a fork under way, the fork fails, and it sleeps on an entry that is not in use |
| Proc.EndlessExit | xv6-lab1/proc.c:206-208 | a run from boot that gets there: init and two generations of children, a waitpid, a kill, and an exit that never ends |
| Proc.KilledInWait | xv6-lab1/proc.c:255-260 | kill makes the wait of a sleeping process fail |
| Proc.KilledInWaitpid | xv6-lab1/proc.c:302-306 | kill makes the waitpid of a sleeping process fail |
| Proc.WaitTwice | xv6-lab1/proc.c:237-306 | once wait has returned a pid, waitpid of it fails and so does kill |
| Proc.Table.constructor | xv6-lab1/proc.c:80-106 | boot state |
| Proc.Table.Allocproc | xv6-lab1/proc.c:35-53 | the first unused entry gets a pid nobody had, all invariants hold and its counter is 0; or none is unused and nothing changes |
| Proc.Table.ForkDone | xv6-lab1/proc.c:148-163 | the child becomes runnable under the caller |
| Proc.Table.ForkFailed | xv6-lab1/proc.c:56-59 | the table stays valid exactly when nobody slept on the entry |
| Proc.Table.Exit | xv6-lab1/proc.c:170-220 | the process becomes a zombie with its status, entered once in the history of exits; given an exact counter the loop ends |
| Proc.Table.Wait | xv6-lab1/proc.c:222-264 | reaps the first zombie child in the table, after which nobody has its pid; fails exactly if there is none and the caller has no child or was killed; otherwise it sleeps with no zombie child |
| Proc.Table.Waitpid | xv6-lab1/proc.c:266-310 | takes the first entry with the pid from where it left off and then, unless killed, from the start: a zombie is reaped, after which nobody has the pid; an unused entry is returned with its old status; on any other it counts itself and sleeps; it fails exactly if it comes to no such entry, so a killed sleeper fails, and a new call fails exactly if nobody has the pid |
| Proc.Table.Reap | xv6-lab1/proc.c:237-251 | pid and status of an exit not reaped before; the entry loses its pid, parent and mark and keeps the rest, and nobody has the pid any more |
| Proc.Table.Kill | xv6-lab1/proc.c:525-546 | fails exactly if no entry has the pid; otherwise the first with it is marked and gets to run if it slept, every other field and entry stays, and the counter of the process it waited for in waitpid is one ahead |
| Proc.Table.Setprio | xv6-lab1/proc.c:320-337 | only the caller's priority changes, clamped to 0..63, and it becomes runnable |
| Proc.Table.Sleep | xv6-lab1/proc.c:454-489 | sleeping on anything but a process entry keeps all invariants |
| Proc.Table.Wakeup | xv6-lab1/proc.c:516-523 | wakes everyone on the channel and no one else; says exactly whose counter runs ahead |
| Proc.Table.Wakeup1 | xv6-lab1/proc.c:491-502 | everyone asleep on the channel, and no one else, becomes runnable |
| Proc.Table.Wakeuppid | xv6-lab1/proc.c:504-515 | as wakeup1, and the counter drops by the number woken |
| Proc.Table.WakeWaiters | xv6-lab1/proc.c:206-208 | with an exact counter the loop ends with everyone awake and the counter 0 |
| Proc.Table.Reparent | xv6-lab1/proc.c:209-215 | all children pass to init, which is woken exactly if one of them is a zombie |
| Proc.Table.Yield | xv6-lab1/proc.c:424-432 | the caller becomes runnable and all invariants hold |
| Proc.Table.Dispatch | xv6-lab1/proc.c:359-361 | a runnable process runs and all invariants hold |
| SleepWakeup.RunSafe | xv6-lab1/proc.c:454-523 | in every state of every run each lock has one holder, and whoever is between test and sleep, or asleep, on a true condition has a wakeup coming |
| SleepWakeup.NoLostWakeup | xv6-lab1/proc.c:464-479 | once the lock of a channel is free, nobody sleeps there on a true condition, for any number of processes, channels and locks |
| SleepWakeup.OneHolder | xv6-lab1/spinlock.c:24-64 | no two processes ever hold the same lock |
| SleepWakeup.PassedHolds | xv6-lab1/log.c:127-130 | a process that found busy 0 and has not set it yet holds log.lock, and busy is still 0 |
| SleepWakeup.BusyMeansOpen | xv6-lab1/log.c:124-149 | log.busy is set exactly while a transaction is open |
| SleepWakeup.OneTransaction | xv6-lab1/log.c:124-149 | at most one transaction is open, and with log.lock free nobody sleeps in begin_trans while busy is 0 |
| Scheduler.Choose | xv6-lab1/proc.c:352-357 | the inner loop ends with a runnable process of the highest priority: the one the scan stopped at if it has that priority, else the first that has it |
| Scheduler.InnerChosen | xv6-lab1/proc.c:352-357 | that description determines the loop's answer, and the answer fits it |
| Scheduler.Scan | xv6-lab1/proc.c:349-358 | dispatches a process than which no runnable one has a higher priority, or reaches the end exactly when nothing is runnable from its position on |
| Scheduler.Schedule | xv6-lab1/proc.c:339-368 | the whole loop on any sequence of tables it may see: each dispatch is runnable and of the highest priority in the table that was scanned for it |
| Scheduler.DispatchesHighest | xv6-lab1/proc.c:339-368 | the same of every run of the loop's steps, and a pass ends only when nothing after its position is runnable |
| Scheduler.EqualIsRoundRobin | xv6-lab1/proc.c:370-403 | with equal priorities the runs are exactly those of the round-robin loop |
| Scheduler.RunsWithinTable | xv6-lab1/proc.c:339-403 | with equal priorities, on one processor, a process that stays runnable is dispatched with fewer than 64 dispatches before it, from any point of any run |
| Pipe.WrapPlace | xv6-lab1/pipe.c:92 | the buffer index survives the wrap of the 32-bit counter |
| Pipe.RingTests | xv6-lab1/pipe.c:84-113 | the wrapping tests mean full and empty |
| Pipe.HonestPut | xv6-lab1/pipe.c:83-93 | the bytes stored are an interleaving of the writers' bytes: those of each writer are a leading part of its argument, in order |
| Pipe.Pipe.constructor | xv6-lab1/pipe.c:32-36 | an open empty pipe |
| Pipe.Pipe.WriteStep | xv6-lab1/pipe.c:76-97 | up to the next sleep or return the bytes stored are the next ones of the argument; -1 only when full with the read end closed or the writer killed; whoever sleeps still has reason to exactly unless a killed writer with more than 512 bytes met a sleeping reader |
| Pipe.Pipe.Fill | xv6-lab1/pipe.c:83-93 | stores bytes until done or full |
| Pipe.Pipe.ReadStep | xv6-lab1/pipe.c:99-120 | sleeps exactly on an empty pipe that can still be written, unless killed; otherwise delivers the oldest undelivered bytes, as many as asked for and there; leaves nobody asleep without reason |
| Pipe.Pipe.Close | xv6-lab1/pipe.c:58-74 | wakes everyone at the other end and no one else, so whoever still sleeps has reason to |
| Pipe.Pipe.Kill | xv6-lab1/proc.c:535-541 | wakes that process only; whoever still sleeps has reason to |
| Pipe.Pipe.NotBothAsleep | xv6-lab1/pipe.c:84-111 | a reader and a writer never sleep on the pipe together |
| Pipe.StrandedReader | xv6-lab1/pipe.c:85-88 | a run from a new pipe that ends with a reader asleep on a full one |
| Malloc.UnitsSuffice | xv6-lab1/umalloc.c:69 | the units granted hold the request exactly when nbytes <= 2^32 - 8 |
| Malloc.UnitsWrap | xv6-lab1/umalloc.c:69 | a request of 2^32 - 1 bytes is granted a header only |
| Malloc.SbrkArgumentRight | xv6-lab1/umalloc.c:52-54 | sbrk is asked for the right number of bytes exactly when it is below 2^31; otherwise it is asked to shrink the process or for nothing |
| Malloc.InsertSorted | xv6-lab1/umalloc.c:33-42 | putting a block back leaves the list in address order with no two blocks touching |
| Malloc.InsertCovers | xv6-lab1/umalloc.c:33-42 | and adds exactly its bytes |
| Malloc.ReleasePartition | xv6-lab1/umalloc.c:24-44 | free moves bytes from the live blocks to the list and nothing else: the two still partition the arena |
| Malloc.TakePartition | xv6-lab1/umalloc.c:75-83 | malloc moves bytes from the list to one new live block, disjoint from all others |
| Malloc.CorePartition | xv6-lab1/umalloc.c:54-59 | fresh core above everything enlarges the arena by exactly its bytes |
| Malloc.StopsAt | xv6-lab1/umalloc.c:30-32 | free's loop stops at the block's place in the circle and nowhere else |
| Malloc.Allocator.Search | xv6-lab1/umalloc.c:30-32 | the search terminates, at the free block below |
| Malloc.Allocator.Link | xv6-lab1/umalloc.c:33-43 | the headers in memory spell out the coalesced list, and freep is on it |
| Malloc.Allocator.Free | xv6-lab1/umalloc.c:24-44 | exactly the given block stops being live, in a valid heap |
| Malloc.Allocator.Morecore | xv6-lab1/umalloc.c:46-61 | a block of at least the units asked for is on the list, or nothing changed |
| Malloc.Allocator.Cut | xv6-lab1/umalloc.c:75-84 | the tail of the block becomes live |
| Malloc.Allocator.Malloc | xv6-lab1/umalloc.c:63-90 | a new live block of the units asked for; morecore is called once exactly when no free block is large enough, never twice; 0 exactly when that call fails |
| Grep.Match | xv6-lab1/grep.c:71-81 | true exactly when the pattern matches at some position, or at the start after ^ |
| Grep.MatchHere | xv6-lab1/grep.c:83-95 | true exactly when the pattern's items split a prefix of the text |
| Grep.MatchStar | xv6-lab1/grep.c:97-105 | true exactly when some run of the character is followed by the rest |
| Grep.BeginsHead | xv6-lab1/grep.c:83-105 | a pattern begins a text exactly when its first item takes some prefix and the others begin what is left |
| Grep.EolLast | xv6-lab1/grep.c:90-91 | $ is special only at the end |
| ShellGrammar.ShowParses | xv6-lab1/sh.c:330-449 | the tokens of any command tree with at most nine arguments each parse to that tree |
| ShellGrammar.ReadExec | xv6-lab1/sh.c:377-449 | a simple command with its redirections, or anything in parentheses, is read back |
| ShellGrammar.ReadPipe | xv6-lab1/sh.c:364-375 | a pipe is read back, grouped to the right |
| ShellGrammar.ReadLine | xv6-lab1/sh.c:347-362 | a list with its background commands is read back |
| ShellSyntax.LineSound | xv6-lab1/sh.c:347-449 | the tokens that parseline has read can be derived, in a grammar given by its rules alone, as the command it returns |
| ShellSyntax.LineComplete | xv6-lab1/sh.c:347-449 | every line that can be derived is read as that command, up to its end |
| ShellSyntax.ParsesExactly | xv6-lab1/sh.c:330-449 | parsecmd accepts exactly the lines of the grammar, each with the one command it can be derived as (> and >> alike redirect output), and panics on all others |
| ShellWords.LineMap | xv6-lab1/sh.c:347-449 | parsing commutes with every change of words |
| ShellWords.LineBag | xv6-lab1/sh.c:347-449 | parsing loses, invents and repeats no word |
| Shell.LexMaximal | xv6-lab1/sh.c:298-303 | every word token is as long as it can be |
| Shell.ScansExactly | xv6-lab1/sh.c:268-311 | the tokens found are the only ones that the line holds under the scanner's rules: blanks, longest words, >> before >, and single symbols |
| Shell.LexRender | xv6-lab1/sh.c:268-311 | scanning a line written from tokens gives the tokens back |
| Shell.RoundTrip | xv6-lab1/sh.c:330-449 | printing any command tree and parsing the line gives the tree back |
| ShellParser.Parser.GetToken | xv6-lab1/sh.c:268-311 | the first token of what is left, past which the cursor moves; 0 at the end |
| ShellParser.Parser.Next | xv6-lab1/sh.c:313-323 | whether the next token is one of the given symbols; no token is consumed |
| ShellParser.Parser.ParseRedirs | xv6-lab1/sh.c:377-400 | what the grammar says, with the cursor before the tokens it leaves |
| ShellParser.Parser.ParseExec | xv6-lab1/sh.c:418-449 | the same; panics exactly where the grammar does |
| ShellParser.Parser.ParseBlock | xv6-lab1/sh.c:402-416 | the same |
| ShellParser.Parser.ParsePipe | xv6-lab1/sh.c:364-375 | the same |
| ShellParser.Parser.ParseLine | xv6-lab1/sh.c:347-362 | the same; all of them terminate on every line |
| ShellParser.NulTerminate | xv6-lab1/sh.c:451-496 | a NUL at the end of every word of the command and no other change |
| ShellParser.ParseCmd | xv6-lab1/sh.c:330-345 | the parse of the whole line or a panic; afterwards every argument and file name is a C string that reads as it did in the line |
| PageTables.LinkTab | xv6-lab1/vm.c:55-63 | an empty table changes nothing that is mapped, for any process |
| PageTables.LinkLeaf | xv6-lab1/vm.c:79-83 | one page of one process gains a mapping; every frame keeps one owner |
| PageTables.DropLeaf | xv6-lab1/vm.c:263-270 | one page of one process loses its mapping and its frame its owner |
| PageTables.WriteLeaf | xv6-lab1/vm.c:372 | writing to a frame changes one page of one process |
| PageTables.OwnFrames | xv6-lab1/vm.c:319-331 | no two user pages, of whatever processes, share a frame |
| Vm.Vm.constructor | xv6-lab1/kalloc.c:30-36 | before kinit every frame belongs to nobody |
| Vm.Vm.Kfree | xv6-lab1/kalloc.c:59-77 | the frame goes to the free list, once, and no process notices |
| Vm.Vm.Kalloc | xv6-lab1/kalloc.c:82-95 | a frame nobody has, exactly when one is free |
| Vm.Vm.Freerange | xv6-lab1/kalloc.c:45-52 | exactly the frames of the range join the free list |
| Vm.Vm.Walk | xv6-lab1/vm.c:45-65 | the table of the address; what is mapped does not change; fails exactly when there is none and none can be had |
| Vm.Vm.MapOne | xv6-lab1/vm.c:78-88 | one page is mapped and no other changes; it fails exactly when the table is missing and no frame is free, and then changes nothing |
| Vm.Vm.Mappages | xv6-lab1/vm.c:70-90 | the pages of a kernel range map to consecutive frames; it fails exactly when fewer frames are free than tables are missing |
| Vm.Vm.Setupkvm | xv6-lab1/vm.c:128-144 | the kernel's mappings and no user page, for one frame and one more for each table that kmap needs; with fewer it fails, and every frame that was free belongs to a directory that nobody has; no process notices |
| Pages.SkipExact | xv6-lab1/vm.c:259-262 | deallocuvm's loop looks at every page that can be mapped exactly when its 4MB skip passes over no table |
| Pages.JumpsPast | xv6-lab1/vm.c:261-262 | from the middle of a missing table the loop never looks at the first page of the next table there is |
| Vm.Vm.DeallocPages | xv6-lab1/vm.c:258-271 | exactly the pages the loop looks at go and exactly their frames become free; these are all that are mapped in the range if the skip passes over no table, or if none is mapped |
| Pages.RoundUpBytes | xv6-lab1/mmu.h:129 | the pages from one rounded size up to another are exactly those that start between the two |
| Vm.Vm.Deallocuvm | xv6-lab1/vm.c:249-273 | the same for sizes in bytes; a size that does not shrink changes nothing; every page with a byte below the new size, and every page from the old size on, keeps its entry and its bytes, and if the skip passes over no table no page starts between the two any more |
| Vm.Vm.Freevm | xv6-lab1/vm.c:278-292 | every frame of the process (pages, tables, directory) goes to the free list exactly once; no other process notices |
| Pages.StrandedAt | xv6-lab1/vm.c:233-240 | at most one page can find a frame and no table: the one at which the frames run out |
| Vm.Vm.AllocPages | xv6-lab1/vm.c:231-242 | with F frames free, P pages and T missing tables: all pages, fresh and zero, exactly if F >= P + T; success with the last page missing and its frame lost exactly if F = P + T - 1 and that page starts a missing table; otherwise no page, the new tables stay, and one frame is lost exactly if the frames ran out at a table; every frame is accounted for |
| Vm.Vm.Allocuvm | xv6-lab1/vm.c:220-243 | the same for sizes in bytes, with the returns for a size past KERNBASE and for one that does not grow; in bytes: every page that starts from the old size up to the new one is there, zero and open to its user (but for the one that is missing), so every address of the new part is mapped, and no other page changes; after a failure no page starts there and no other has changed |
| Vm.MissingPage | xv6-lab1/vm.c:240 | a run in which allocuvm succeeds and the page is not there |
| Vm.Vm.Copyuvm | xv6-lab1/vm.c:310-337 | the child has the parent's bytes and flags in frames of its own and no other user page; with R frames left after setupkvm it succeeds exactly if R >= n + ceil(n / 1024); a failure then gives every frame back, except the page just copied exactly if R = 1025 m + 1 with 1024 m < n; when setupkvm fails all frames that were free are gone |
| Pages.FramesBare | xv6-lab1/vm.c:319-331 | n pages in a directory without user tables take n + ceil(n / 1024) frames |
| Vm.LostFrame | xv6-lab1/vm.c:329-336 | a run in which a failed copyuvm loses a frame |
| Vm.Vm.Clearpteu | xv6-lab1/vm.c:297-305 | the entry loses PTE_U and keeps its frame and every other flag; all other pages and all bytes stay |
| Vm.Vm.Uva2ka | xv6-lab1/vm.c:341-352 | the frame exactly of a page that is present and open to users |
| Vm.Vm.Copyout | xv6-lab1/vm.c:357-378 | one contiguous write at a virtual address across pages, up to the first page users may not touch |

## Left out

- Boot, assembly, descriptors, interrupt controllers, console, keyboard, timer, and port I/O inside ide.c.
- System call dispatch and argument fetching (syscall.c, sysproc.c, trap.c), exec.c and loaduvm.
- Device inodes: readi, writei and filewrite are modelled for files and directories only.
- ilock and iunlock as locks: file operations run one at a time in the model, inside one transaction each.
- iput calls that run outside a transaction (chdir, exec, exit): an inode is freed only inside one.
- The sign of nlink: link counts are 16-bit numbers without one; the source's short is negative past 32767.
- File table and descriptors (filealloc, filedup, fdalloc): reference counts of the same kind as the inode cache's.
- pushcli, popcli and initlock: a processor's interrupt flag is not part of the model.
- Allocation inside the log area when no block below it is free.
- Fairness of the scheduler among equal priorities while lower ones are runnable: the rescan can skip a later equal.
- Memory ordering: taking a spinlock is one atomic action.
- Pages of the kernel half of an address space: mapped, but their contents are not modelled.
- runcmd, the line buffer of grep, the other user programs, and the files that mkfs copies into the image.
- More than one device: path walks and links stay on the root device.
- BufferCache.Cache.Bread: requires that nobody holds the sector; with a held one it would sleep in Bget and start
  again.
- BufferCache.Cache.Brelse: requires that a changed buffer was written or logged, as every caller in the kernel does.
- FileSystem.FileSystem.Begin: requires that no transaction is open, since file operations run one at a time here.
- FileSystem.FileSystem.Balloc: requires a free block below the log. The source scans on into the log, which mkfs does
  not mark, and panics when no bit is clear.
- File.OpenFile.Write: requires the blocks it will need, and at most 4096 blocks on the disk (mkfs makes 1024). With
  more than one bitmap block a chunk can log more than ten sectors.
- Proc.Table.Exit: requires an exact counter; Proc.ExitLoopEnds says that the source does not return otherwise.
- Proc.Table.WakeWaiters: requires an exact counter, for the same reason.
- Proc.Table.Allocproc: requires nextpid below 2^31 - 1.
- Proc.Table.Sleep: takes channels other than process table entries; only wait and waitpid sleep on those.
- Proc.Table.ForkDone: is one step, where the source fills in the child without the lock before it makes it runnable.
- Malloc.Allocator.Malloc: requires that core is asked for below 2^31 bytes; Malloc.SbrkArgumentRight says what the
  source asks for otherwise. The base header lies below all core.
- Malloc.Allocator.Morecore: requires the same.
- Namei.Namex: requires two spare slots in the inode cache; iget panics without them. It does not free an inode without
  links on the way; Namei.WalkLinked says that from a directory with links there is none.
- Sysfile.Link: takes the inode and the directory that the path walks found as arguments; so do Unlink and Create. It
  requires room in the directory, the blocks that the entry needs, at most 4096 blocks on the disk, and a link count
  below 65535.
- Sysfile.Unlink: is told whether the inode has other references, and leaves the directory's own reference alone.
- Sysfile.Create: requires a free inode, where ialloc panics, and what Link requires of the directory.
- Sysfile.Close: is the iput of the last reference.
- Sysfile.WriteChunk: is for files; the kernel refuses to open a directory for writing.
- Inodes.Iput: requires one bitmap block and room in the log for what it may free.
- Mkfs.Mkfs: requires a bitmap that fits in one block, as the source asserts, and a data block for the root.
- Vm.Vm.Mappages: is for kernel ranges; the source maps user pages one at a time, which is MapOne.
- Vm.Vm.Uva2ka: requires the table of the page; the source follows a null pointer in its place.
- Vm.Vm.Copyout: requires the tables of the range, for the same reason.
- Vm.Vm.DropPage: clears the entry before it gives the frame back, where the source does it after; the two writes
  commute.
