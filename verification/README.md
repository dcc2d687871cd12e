# A verified model of xv6

This project models the parts of the xv6 teaching kernel (the x86 version with `truncate`, `less` and `vim` added)
whose correctness is hard to see, in Dafny 4.11, and proves what they are for. `dafny verify dfyconfig.toml` checks
everything.

- **Crash-safe storage** (`blocks`, `memide`, `bio`, `log`, `logsectors`, `transaction`): a redo log over an LRU
  buffer cache over a disk whose single-sector writes are atomic. The disk keeps the history of its images, so that "a
  crash between any two writes" is a statement about every image in it. A transaction is any sequence of reads, changes,
  log writes and releases.
- **Files** (`bitmap`, `blockmap`, `content`, `inode`, `mkfs`, `mkfstree`, `images`, `capacity`): block
  allocation, direct and indirect block maps, files as byte sequences, and what one write logs. `mkfs` and `mkfstree`
  establish the invariants the kernel relies on, under exact conditions on the files.
- **Names** (`dir`, `links`, `sysfile`, `icache`, `truncate`): directories as packed records that mean finite maps, link
  counts, the inode cache, and the `truncate` program on top of the system calls. The directory tree is read off the
  bytes of the files, so these results rest on those about blocks.
- **Processes** (`proc`, `procscan`, `procturn`, `spinlock`, `spincalls`, `pipe`, `pipelife`): step relations over CPUs,
  processes and locks. One step is what happens between two points where another CPU can act; the main results are about
  all runs from boot.
- **Memory** (`umalloc`, `vm`, `vmops`, `copyout`): the Kernighan and Ritchie allocator, two-level page tables
  over the page free list, and the copy into user memory.
- **Text** (`sh`, `shprint`, `shblank`, `shgrammar`, `grep`): the shell's parser with in-place termination, which
  decides the grammar of command lines, and the pattern matcher.

Panics for lack of resources (no free block, inode, cache entry) are results `None` or `false` whose contracts say what
has run out; other panics are preconditions of the callers or are proved unreachable, as the table says.

Some properties fail in corners of the code. The exact conditions are stated:

- `balloc` may hand out a sector of the log, since `mkfs` marks no bits for it (`Capacity.BallocNearLog`,
  `Capacity.LogSectorHandedOut`).
- The size that `mkfs` gives the root directory leaves a hole when its last block was full (`MkfsTree.MakeImage`,
  `Images.FullRootBlock`).
- `mkfs` hands out sectors of the log when the files need them (`MkfsTree.MakeImage`, `Images.LogOverwritten`).
- `malloc` returns too small a block when its 32-bit computation wraps (`Umalloc.UnitsSuffice`), and below that, from
  about 2 GB on, `sbrk` takes the request for a shrink (`Umalloc.HugeRequests`, `Umalloc.Allocator.Malloc`).
- A killed pipe writer can leave readers asleep (`Pipe.NoLostWakeup`, `Pipe.KilledWriterLosesWakeup`).
- A `kill` that finds its pid in a free slot (0 in one that was never used), or in an embryo whose `fork` then fails,
  marks the next process of that slot as killed (`ProcScans.StartsUnkilled`, `ProcScans.StaleKill`).
- The 4 MB skip of `deallocuvm` can pass over a mapped page (`VirtualMemory.Vm.Deallocuvm`,
  `VirtualMemory.SkippedPage`).
- `allocuvm`, `copyuvm` and `setupkvm` lose pages when there is none for a page table (the results `lost` and `leak`).
- `iput` panics when it frees an inode outside a transaction, as `exit` and `chdir` call it (`InodeCache.Icache.Iput`,
  `Images.ChdirPanics`).
- `copyout` dereferences a null pointer when a page table is missing (`UserCopy.Copyout`).
- The scheduler does not get its own interrupt flag back from `sched` (`SpinCalls.SchedulerGetsOther`); this is harmless,
  since it enables interrupts on its next turn (proc.c:264).

## Model

| member | source | states |
|---|---|---|
| `MemIde.Disk.Iderw` | memide.c:37-58 | a dirty buffer is written to its sector and becomes clean, a clean one is filled from it; each call leaves one more disk image in the history, and no other sector changes |
| `BufferCache.Unlinked` | bio.c:127-128 | taking a buffer out of the doubly linked ring leaves a ring of the others |
| `BufferCache.Relinked` | bio.c:127-132 | the six link assignments of brelse turn the ring into the ring with that buffer first |
| `BufferCache.MovedToFront` | bio.c:120-138 | moving a buffer to the front keeps the list ordered by time of last release |
| `BufferCache.BCache.constructor` | bio.c:39-56 | binit builds a ring of all NBUF buffers |
| `BufferCache.BCache.Bget` | bio.c:62-93 | returns the buffer that already holds the sector, or else recycles a clean buffer that is not busy and was released longer ago than every other such buffer; the ring, one buffer per sector and agreement with the disk are kept |
| `BufferCache.BCache.Bread` | bio.c:97-105 | the buffer returned is busy, valid and shows the sector: the disk contents unless the cached copy is newer |
| `BufferCache.BCache.Bwrite` | bio.c:109-115 | writes exactly this sector, whatever the buffer held before; afterwards buffer and disk agree |
| `BufferCache.BCache.Brelse` | bio.c:120-138 | the buffer is first in the list and no longer busy; contents and all other buffers stay; the cache still agrees with the disk exactly when the released buffer is dirty, not valid or equal to its sector |
| `LogImage.InstalledAt` | log.c:70-82 | what installing a log does to each home sector: the last logged block for it, or nothing |
| `LogImage.PartialInstallRecovers` | log.c:70-82 | a crash after any number of installed blocks changes nothing about what recovery yields |
| `LogImage.EmptyRecovers` | log.c:116-122 | with an empty header recovery leaves the home sectors alone |
| `LogImage.RecoveryStepKeeps` | log.c:116-122 | every single sector write of recovery leaves an image that recovers to the same home sectors |
| `LogImage.RepeatedCrashes` | log.c:116-122 | any number of crashes inside recovery, each followed by a new recovery, ends in the same home sectors as one undisturbed recovery |
| `RedoLog.Log.WriteHead` | log.c:102-113 | the header sector on disk lists exactly the logged sectors; this is one atomic sector write |
| `RedoLog.Log.ReadHead` | log.c:86-96 | the header read back is the one on disk |
| `RedoLog.Log.InstallTrans` | log.c:70-82 | every logged block is copied to its home sector, each intermediate image recovers to the same state, and no cached block stays pinned |
| `RedoLog.Log.RecoverFromLog` | log.c:116-122 | home sectors become what the on-disk header and log blocks say, the header ends empty, and every image on the way recovers to the same state |
| `RedoLog.Log.BeginTrans` | log.c:125-133 | a transaction opens without touching the disk |
| `RedoLog.Log.LogWrite` | log.c:160-181 | the block is copied into its log slot, an already logged sector is absorbed, the cached buffer stays dirty and cannot be evicted, and no home sector on disk changes |
| `RedoLog.Log.CommitTrans` | log.c:136-149 | the images up to the header write recover to the old home sectors and those from it on to the new ones; at the end the home sectors on disk are the new ones, the log is empty and every buffer is clean |
| `RedoLog.CommitRecovers` | log.c:136-149 | the three phases of a commit (header written, installed, header cleared) recover to the committed state |
| `Transactions.PendingAt` | log.c:172-179 | while a transaction is open a valid buffer is dirty exactly when its sector is in the log, and then the log block holds what will be installed there |
| `Transactions.Fetch` | bio.c:97-105 | bread inside a transaction, with any other buffers held, shows what the sector will be after commit |
| `Transactions.Append` | log.c:160-181 | log_write with any other buffers held adds this change to what commit will install; no home sector on disk changes |
| `Transactions.RunTransaction` | log.c:125-181 | any sequence of bread, change, log_write and brelse, with any number of buffers held at once: afterwards each home sector holds the last change made to it before its last log_write, and any other sector what it held; this is atomic, since each disk image that a crash could leave recovers to all of these changes or to none, and to all of them exactly from the first header write on |
| `Transactions.ChangedOrNot` | log.c:160-181 | any list of events changes a sector or leaves it, in the sense of the previous row: there is no third case |
| `Transactions.CrashAnywhere` | log.c:116-149 | a crash at any image of the transaction and then at any image of any number of recoveries leaves a disk that recovers to the old or the new home sectors, by the header write alone |
| `Transactions.Boot` | log.c:54-64 | the kernel that boots on a disk ends with the recovered home sectors, an empty log and no buffer held |
| `Transactions.Reboot` | log.c:54-149 | the two together: after any crashes the next complete boot finds all of the transaction or nothing of it |
| `Images.FirstBoot` | log.c:54-64 | mkfs and the first boot: when the files leave the sectors of the log alone, the kernel starts from the image as mkfs made it, with an empty log |
| `LogSectors.DistinctLogged` | log.c:160-181 | through absorption the log header is as long as the number of distinct sectors written |
| `LogSectors.HeaderBound` | log.c:160-181 | after any number of log_write calls the header is no longer than the number of sectors that the transaction touches |
| `Capacity.BallocNearLog` | fs.c:53-76 | balloc returns a block of the log or beyond if and only if every block before the log is in use and a later one is free |
| `Images.FullDisk` | mkfs.c:247-293 | an image as mkfs makes it, with a sound tree, whose files fill every block before the log |
| `Capacity.LogSectorHandedOut` | fs.c:53-76 | on that disk the next balloc hands out the first sector of the log |
| `Blocks.SetWord` | fs.c:375-377 | a 32-bit word written into a block reads back, every other word is unchanged |
| `Bitmap.OneBit` | fs.c:66-68 | setting or clearing the bit of a block changes that bit and no other |
| `Bitmap.FirstFree` | fs.c:53-76 | the scan over bitmap blocks and bits finds the first free block, or there is none |
| `BlockMap.RefsIgnoreData` | fs.c:463-492 | overwriting a block that is not an indirect block changes no block reference of any file |
| `BlockMap.OwnedMore` | fs.c:357-384 | giving an unowned block to an empty slot keeps the rule that every block is named by one slot only |
| `BlockMap.OwnedEntry` | fs.c:371-377 | the same for an entry of an indirect block, which is itself changed |
| `BlockMap.SlotDropped` | fs.c:398-414 | freeing what a slot names takes exactly that block from the owned ones |
| `BlockMap.AllFreed` | fs.c:392-419 | after the loops of itrunc the inode owns nothing, with or without an indirect block |
| `FileContent.KeptByte` | fs.c:357-384 | allocation for one file leaves every byte of every file as it was |
| `FileContent.DataByte` | fs.c:477-481 | writing inside one block changes just those bytes of that file |
| `FileContent.DataView` | fs.c:477-481 | the same, for the file as a byte sequence |
| `FileContent.WroteDone` | fs.c:484-487 | once the size is set the file is the old one with the new bytes spliced in, and no file has a hole |
| `FileContent.BlocksGrow` | fs.c:357-384 | blocks of a file that are mapped stay the same blocks |
| `FileSystem.SectorLayout` | fs.h:36-46 | inode sectors, bitmap sectors and file blocks follow one another without overlap, eight inodes and 4096 bits to a sector |
| `FileSystem.AllocAddr` | fs.c:363-372 | a fresh block for a direct or the indirect address keeps bitmap and ownership in agreement |
| `FileSystem.AllocEntry` | fs.c:373-379 | the same for an indirect entry |
| `FileSystem.FreedSlot` | fs.c:398-414 | a block that itrunc frees is in use, so "freeing free block" cannot happen |
| `FileSystem.Fs.Balloc` | fs.c:53-76 | takes the first free block, marks it, zeroes it and logs both; fails only if every block is in use |
| `FileSystem.Fs.Bmap` | fs.c:357-384 | returns the block of the file at that index; changes nothing if it exists, else allocates zeroed blocks; ownership, bitmap and all other files are kept; logs only the bitmap, the new block and the indirect block |
| `FileSystem.Fs.Itrunc` | fs.c:392-419 | frees every block of the file and no other, leaves it empty on disk and in memory, and leaves all other files as they are |
| `FileSystem.Fs.Readi` | fs.c:435-458 | returns exactly the bytes of the file in the range, -1 exactly for a bad offset or an overflowing range, and never allocates |
| `FileSystem.Fs.Writei` | fs.c:463-492 | splices the bytes into the file, -1 exactly when off is past the end or the file would exceed its maximum; other files keep their bytes; the inode is written to disk whenever any of its fields changed; blocks can run out only when the file grows; at any outcome only the blocks of the range, the indirect block that leads there, the inode and bitmap sectors are logged |
| `FileSystem.FewSectors` | file.c:127-133 | a piece of a write, at any offset, concerns at most four data blocks, and its log_write calls never fill the log header while the bitmap takes one or two sectors |
| `FileSystem.SixFit` | log.c:160-181 | a transaction that logs at most six sectors besides the bitmap never fills the log header |
| `FileSystem.Fs.WriteTrans` | file.c:140-145 | every block, bitmap sector and inode sector that one transaction of filewrite changes is among its log_write calls, as is every block it takes, and after no prefix of those calls is the header full ("too big a transaction" cannot happen with at most two bitmap sectors) |
| `FileSystem.Fs.Filewrite` | file.c:117-155 | writes everything or stops at a whole number of pieces; returns the count exactly when it all fits; "short filewrite" cannot happen |
| `Mkfs.Builder.Ialloc` | mkfs.c:215-226 | the next inode, with one link, and no file changes |
| `Mkfs.Builder.constructor` | mkfs.c:82-96 | an empty image: no block owned, the blocks after the metadata zero and free |
| `Mkfs.Builder.Iappend` | mkfs.c:247-293 | appends to the file, handing out blocks in order; succeeds exactly when the blocks that the longer file takes are there, and takes exactly those; block ownership is kept and no file has a hole or a spare block |
| `Mkfs.MarkUsed` | mkfs.c:229-242 | sets exactly the first `used` bits |
| `Mkfs.Builder.Finish` | mkfs.c:142-150 | bitmap, ownership and inodes agree; the root directory is its old bytes followed by zeros, and has a hole exactly when its last block was full |
| `MkfsTree.TreeInv` | mkfs.c:98-140 | the tree that mkfs writes (a root with its dots and the named files) satisfies the link invariant if and only if the names, cut to 14 bytes, are all different and none is a dot entry |
| `MkfsTree.AddFile` | mkfs.c:112-140 | one turn over the command line: the tree with one more file, its entry in the root and its bytes; succeeds exactly when inodes, sizes and the counted blocks suffice |
| `MkfsTree.MakeImage` | mkfs.c:59-152 | succeeds exactly when inodes, sizes and the counted blocks suffice, and shows the given files, each entered in the root under its name without a leading underscore; the tree invariant holds if and only if the names are in order and the root directory did not end on a block boundary; no file owns a sector of the log if and only if the blocks of the files end before it, and then the log is empty |
| `MkfsTree.LogUntouched` | mkfs.c:95-96 | no file owns a sector of the log if and only if the blocks handed out end before it, and then the log header is still empty, so that recovery keeps the image |
| `Images.LogOverwritten` | mkfs.c:247-293 | seven files of the greatest size: the tree is in order, but they own sectors of the log, and what stands in its header sector is no log header |
| `Images.FullRootBlock` | mkfs.c:142-147 | thirty files: the names are in order, but the root directory has a hole, so the tree invariant does not hold |
| `BoundedNames.Strncmp` | string.c:59-66 | zero exactly when both buffers hold the same string of at most n bytes, else the difference of the first two bytes that differ |
| `BoundedNames.Strncpy` | string.c:69-79 | the string cut to n bytes, padded with NULs |
| `BoundedNames.PaddedKey` | string.c:69-79 | a padded copy compares equal to the original |
| `BoundedNames.Skipelem` | fs.c:577-599 | splits off the first path element, cut to DIRSIZ bytes, and leaves the others; fails exactly when there is none |
| `Directory.EncodeDecode` | fs.c:553-554 | a record written by dirlink reads back as the cut name and the inode number |
| `Directory.SplicedSlots` | fs.c:555-556 | writing 16 bytes at a record boundary replaces or appends exactly one record |
| `Directory.MapAnswers` | fs.c:506-529 | the first matching record is the answer of the finite map |
| `Directory.LinkedMap` | fs.c:533-559 | linking a new name adds exactly that name to the map and keeps names unique |
| `Directory.ClearedMap` | sysfile.c:207-209 | clearing a record removes exactly its name |
| `Directory.Dirlookup` | fs.c:506-529 | the inode number and offset of the first record with the name, over the bytes of the directory file; nothing changes |
| `Directory.Dirlink` | fs.c:533-559 | -1 exactly when the name is there; else the record goes to the first free slot or the end, and every other file keeps its bytes |
| `Directory.ClearSlot` | sysfile.c:207-209 | clears one record, which cannot fail; every other file keeps its bytes; at most two blocks, the inode and the bitmap are logged |
| `Directory.Isdirempty` | sysfile.c:164-176 | true exactly when no record after the first two is in use |
| `Links.LinkKeeps` | sysfile.c:134-150 | after link every link count is still the number of entries other than "." that name the inode |
| `Links.CreateKeeps` | sysfile.c:252-273 | the same after create of a file, device or directory, including the parent's count for ".." |
| `Links.UnlinkFileKeeps` | sysfile.c:207-217 | the same after unlink of a file |
| `Links.UnlinkDirKeeps` | sysfile.c:203-217 | the same after unlink of an empty directory, whose ".." no longer counts |
| `Links.OnlyEntry` | sysfile.c:203-206 | an empty directory is named by its entry in its parent and by nothing else |
| `Links.OnlyDots` | sysfile.c:164-176 | the directories that may be removed are exactly those with no names but "." and ".." |
| `SysFile.SysUnlink` | sysfile.c:180-232 | in a transaction of its own, on the bytes of the file system: 0 exactly when the name is an entry other than the dots and not a directory in use, and then the tree loses that entry and the counts agree; else -1 and nothing changed; it never runs out of blocks; "unlink: nlink < 1" and "too big a transaction" cannot happen |
| `SysFile.SysLink` | sysfile.c:116-160 | in a transaction of its own, which fits the log: 0 exactly when the inode is no directory, the new directory exists and the name is new; on failure the raised link count is lowered again and nothing has changed; the bytes, type and device numbers of all files stay |
| `SysFile.Create` | sysfile.c:235-277 | inside the caller's transaction: an existing plain file is returned, another existing name gives 0, a new name gets the first free inode with the given type and device numbers, its entry and the dots; the tree invariant and all other files are kept; at most four blocks, two inode sectors and the bitmap are logged |
| `SysFile.SysMkdir` | sysfile.c:322-335 | create of a directory in a transaction of its own, which covers every changed sector and fits the log and leaves the files as they are; it runs out only if all inodes are in use, or at most six blocks and one per bitmap sector were free |
| `SysFile.NewInode` | fs.c:176-198 | the first free inode is put to use with one link |
| `InodeCache.Icache.Iget` | fs.c:223-253 | one live entry per inode: a cached inode is found again, otherwise a free entry is taken; fails only if all are in use |
| `InodeCache.Icache.Idup` | fs.c:258-264 | one more reference |
| `InodeCache.Icache.Ilock` | fs.c:269-297 | whatever stood in the fields of an entry that is not valid, afterwards memory and disk agree on the inode and the whole tree is consistent |
| `InodeCache.Icache.Iput` | fs.c:318-336 | the inode is freed exactly when this was the last reference, it is loaded and has no link, otherwise nothing but the count changes; "write outside of trans" is reached exactly when it would be freed and no transaction is open |
| `InodeCache.Icache.Fileclose` | file.c:73-77 | closing the last descriptor of a file inside a transaction never panics, fits the log, and frees the inode exactly when this was its last reference and it has no link |
| `InodeCache.FreeKeeps` | fs.c:318-336 | freeing an inode without links keeps all link counts right |
| `InodeCache.FreeInode` | fs.c:321-331 | contents discarded and inode free, everything else kept |
| `InodeCache.ChdirFromRemoved` | sysfile.c:359-378 | a process whose current directory has been removed, and which holds its last reference, panics when chdir drops that reference |
| `Images.ChdirPanics` | sysfile.c:359-378 | this happens on a new image: mkdir, chdir into it, its removal, and a further chdir |
| `TruncateProgram.CopyResized` | truncate.c:31-43 | the copy and padding loops give the new file the requested size; byte by byte it is the old file, and zero beyond it |
| `TruncateProgram.UnlinkOpen` | truncate.c:21-24 | unlinking a file that is open does not free its inode: all its bytes stay |
| `TruncateProgram.Truncate` | truncate.c:13-46 | afterwards the name leads to a file with the first bytes of the old one up to the size, then zeros, for every size up to the maximum, and all other plain files keep their bytes; it fails only when blocks, inodes or cache entries run out; the old inode is freed exactly when this was its last link and reference |
| `ProcTable.ProcControl` | proc.c:258-308 | a step of a process keeps the lock with its CPU and disturbs no other CPU or thread |
| `ProcTable.SchedControl` | proc.c:258-288 | the same for every step of a scheduler and of an interrupt handler on an idle CPU |
| `ProcTable.KinStep` | proc.c:129-247 | every step of fork, exit and wait keeps parents alive and older, and pids unique |
| `ProcTable.ForksStep` | proc.c:35-161 | every forking process has an embryo of its own, although fork writes it without the lock and may be preempted and moved between the writes |
| `ProcTable.WakesStep` | proc.c:167-247 | every step of exit and wait keeps the wakeup invariant |
| `ProcTable.StepKeeps` | proc.c:35-420 | every step of any CPU keeps the whole invariant: system calls, preemption and wakeups by clock interrupts in the middle of them, and interrupts on idle CPUs |
| `ProcTable.RunInv` | proc.c:35-420 | the invariant holds in every state of every run from boot |
| `ProcTable.NoLostWakeup` | proc.c:167-247 | in every run, when ptable.lock is free, no process sleeps in wait while it has a zombie child |
| `ProcTable.ZombieReaped` | proc.c:209-247 | in every run a zombie's slot changes only by its current parent reaping it in wait |
| `ProcTable.ReapedOnce` | proc.c:209-247 | in every run no process is reaped twice |
| `ProcTable.DownToInit` | proc.c:129-204 | in every run the parent links of every process lead to init through smaller and smaller pids |
| `ProcTable.RunningOnOneCpu` | proc.c:258-308 | in every run, when ptable.lock is free, RUNNING processes and CPUs with a current process are in bijection |
| `ProcTable.OneInside` | proc.c:258-375 | in every run the one CPU inside ptable.lock is its holder, through every context switch |
| `ProcTable.WaitFailsWithoutChildren` | proc.c:237-241 | in every run, wait of a process that was not killed gives up only if the process has no child |
| `ProcScans.WakeupWakes` | proc.c:381-397 | in every run, when wakeup has gone through the table, no process sleeps on its channel |
| `ProcScans.InterruptWakes` | trap.c:51-56 | the same for the wakeup of a clock interrupt on an idle CPU |
| `ProcScans.ChannelsAreCurrent` | proc.c:363-368 | in every run a process outside sleep has no channel, and a sleeping one has that of its call |
| `ProcScans.SleepsWhereAsked` | proc.c:343-365 | in every run sleep leaves the process asleep on the given channel |
| `ProcScans.KillFails` | proc.c:403-420 | in every run kill gives up only if no slot has the pid |
| `ProcScans.KillSucceeds` | proc.c:403-416 | in every run a kill that succeeds has marked a process with that pid, which is not left asleep, and has released the lock |
| `ProcScans.KilledIsAwake` | proc.c:403-416 | in every run a step marks a process as killed only for a kill of its pid, and does not leave it asleep |
| `ProcScans.StartsUnkilled` | proc.c:35-50 | for every run: no free slot is ever marked as killed, so that new processes start unmarked, if and only if no kill finds its pid in a free slot and no fork fails after its embryo was killed |
| `ProcScans.StaleKill` | proc.c:403-416 | a run from boot in which kill(0) marks a free slot |
| `ProcScans.NoEmbryoLeft` | proc.c:129-161 | in every run each embryo belongs to a process in the middle of fork |
| `ProcScans.AllocVisitsAll` | proc.c:40-45 | in every run the search of allocproc has found each slot before its position in use |
| `ProcScans.ReapedIsGone` | proc.c:222-235 | in every run a pid that wait has returned is found in no slot any more |
| `ProcScans.PassVisitsAll` | proc.c:262-288 | in every run a pass of a scheduler looks at every slot, and runs the process there exactly if it is RUNNABLE at that moment |
| `ProcTurns.HolderAdvances` | proc.c:35-420 | in every run each step of the CPU that holds ptable.lock releases it or brings the release nearer, in a well-founded order over the scheduler's pass and the scans of exit, wait, wakeup, kill and allocproc |
| `ProcTurns.HolderCanMove` | proc.c:35-420 | in every run the CPU that holds ptable.lock can take a step, so the lock is never held for ever |
| `ProcTurns.OutsideAdvances` | proc.c:129-161 | in every run a process outside the lock enters it for what it asked, to come back to where it was, or takes the next step of fork |
| `Spinlock.StepKeeps` | spinlock.c:25-116 | every atomic step of acquire, release, pushcli and popcli keeps the lock invariant |
| `Spinlock.MutualExclusion` | spinlock.c:25-64 | in every run two CPUs are never in the critical section of the same lock |
| `Spinlock.XchgDecides` | spinlock.c:34 | in every run an xchg gets the lock exactly if no CPU holds it, and leaves it locked |
| `Spinlock.ReleaseFrees` | spinlock.c:44-64 | in every run, after a release, the lock is free and no CPU holds it |
| `Spinlock.CountsAndHolding` | spinlock.c:86-116 | in every run ncli is the number of locks held plus pushcli calls open, interrupts are off while it is positive, and holding() is exact |
| `Spinlock.InterruptsOff` | spinlock.c:97-105 | in every run a CPU that holds a lock or has a pushcli open has interrupts off |
| `Spinlock.PopcliNeverPanics` | spinlock.c:108-116 | in every run neither panic of popcli is reached |
| `SpinCalls.AcquireReturns` | spinlock.c:25-40 | in every run, when acquire returns, this CPU holds the lock besides what it held before, holding() says so, one popcli more is due and interrupts are off |
| `SpinCalls.ReleaseReturns` | spinlock.c:44-64 | in every run the third step of a release is its return; the CPU then holds what it held before but for the lock, and one popcli less is due |
| `SpinCalls.NestingCounts` | spinlock.c:96-116 | in every run ncli is the number of locks held plus the number of pushcli calls that no popcli has undone, counted over the steps of the run |
| `SpinCalls.RunsCurrent` | proc.c:275-283 | in every run a CPU runs the process it was last switched to, until that switches back |
| `SpinCalls.InterruptsRestored` | spinlock.c:97-116 | in every run, context switches included, a process that does not set the interrupt flag has the same one each time that it is out of all locks and pushcli calls, on whatever CPU it runs |
| `SpinCalls.OwnFlag` | proc.c:293-308 | in every run a process out of all locks has the interrupt flag that it set last itself, on whatever CPU it runs now and whatever has run in between |
| `SpinCalls.FlagRestored` | spinlock.c:97-116 | in every run the same for a CPU, as long as nobody sets its flag and it does not switch to a process |
| `SpinCalls.SchedulerGetsOther` | proc.c:293-308 | in every run the scheduler thread, after a process has switched back to it, has the flag that the process had saved, not its own |
| `Pipe.FullEmpty` | pipe.c:84-104 | the tests for full and empty are exact although the counters wrap around |
| `Pipe.Fifo` | pipe.c:78-120 | bytes read followed by bytes buffered are the bytes stored |
| `Pipe.StepKeeps` | pipe.c:59-120 | every step of any reader, writer or closer, kills included, keeps the invariant, with its half about sleeping writers |
| `Pipe.ReaderStep` | pipe.c:78-120 | a step keeps "a sleeping reader has nothing to read" if and only if it is not a killed writer giving up at a full pipe while a reader sleeps |
| `Pipe.PipeFifo` | pipe.c:78-120 | in every run of any readers and writers the pipe is first in first out and holds at most 512 bytes |
| `Pipe.ReadsStream` | pipe.c:100-120 | in every run what a piperead call hands to its caller are the last bytes taken from the pipe, in order, which are those stored at these places of the stream |
| `Pipe.WritesInOrder` | pipe.c:78-97 | in every run the bytes that a pipewrite call has stored are the first ones of its buffer, at increasing places of the stream, and all of them when it is done |
| `Pipe.RequestKept` | pipe.c:78-120 | in every run a call goes on with the buffer or the count that it was given |
| `Pipe.WriterNeverStuck` | pipe.c:78-120 | in every run, kills included, when the pipe lock is free a sleeping writer means a full pipe open for reading |
| `Pipe.NoLostWakeup` | pipe.c:78-120 | for every run: a sleeping reader always means, when the pipe lock is free, an empty pipe open for writing, if and only if no step of the run is a killed writer giving up at a full pipe while a reader sleeps |
| `Pipe.EndOfStream` | pipe.c:111-119 | in every run piperead stops short only at an empty pipe, and returns nothing only when no writer is left |
| `Pipe.StepAdvances` | pipe.c:59-120 | every step of a call, after the one that begins it or resumes it from sleep, brings it nearer to its return or to sleep |
| `Pipe.HolderCanMove` | pipe.c:59-120 | in every run whoever holds the pipe lock can go on, unless a thread on its way to sleep holds ptable.lock and can go on itself; so neither lock is held for ever |
| `Pipe.KilledWriterLosesWakeup` | pipe.c:85-88 | a run from a new pipe that ends with 512 bytes stored, the lock free and a live reader asleep |
| `PipeLife.LifeStep` | pipe.c:59-75 | every step of threads that call the pipe, share descriptors, close them and free the pipe keeps the invariant about descriptors, open ends and freeing |
| `PipeLife.HoldsByHistory` | file.c:44-78 | in every run a thread has a descriptor exactly if it had or was given one and has not closed it since |
| `PipeLife.FreedOnce` | pipe.c:69-71 | in every run the pipe is freed at most once, and only after both ends are closed and no descriptor is left |
| `PipeLife.NeverTouchedAgain` | pipe.c:59-75 | in every run, after the pipe is freed no thread is inside a call on it or can begin one |
| `PipeLife.NeverLeaked` | pipe.c:69-74 | in every run, when both ends are closed, the lock is free and nobody is about to free the pipe, it has been freed |
| `PipeLife.CallsBegin` | file.c:60-72 | in every run a thread with a descriptor finds the end open, and one that has dropped the last descriptor finds nobody inside: the conditions of the pipe model hold by reference counting |
| `PipeLife.PipeRun` | pipe.c:59-120 | every such run is a run of the pipe model, so the results about all its runs apply |
| `Umalloc.UnitsSuffice` | umalloc.c:69 | a block is large enough for the request exactly when the 32-bit unit computation does not wrap |
| `Umalloc.HugeRequests` | umalloc.c:47-69 | the argument of sbrk is not positive exactly for requests from 2 GB less 15 bytes up to the last one whose unit computation does not wrap |
| `FreeList.Conserved` | umalloc.c:25-90 | the sizes of live and free blocks together are the units obtained from the system |
| `FreeList.Released` | umalloc.c:25-44 | the header updates of free leave an address-ordered, fully coalesced cycle with the block free |
| `FreeList.TakenWhole` | umalloc.c:78-79 | unlinking a block that fits exactly keeps the cycle and makes it live |
| `FreeList.TakenTail` | umalloc.c:80-84 | cutting off the tail of a larger block keeps the cycle and makes the tail live |
| `Umalloc.LiveDisjoint` | umalloc.c:64-90 | different live blocks share no unit |
| `Umalloc.SlotUnique` | umalloc.c:31-33 | the stopping condition of the search in free holds at the right place only |
| `Umalloc.Allocator.Precede` | umalloc.c:31-33 | the search of free ends, at the list element that precedes the block by address |
| `Umalloc.Allocator.Free` | umalloc.c:25-44 | the block becomes free and nothing else changes hands; the heap invariant is kept |
| `Umalloc.Allocator.Sbrk` | proc.c:107-123 | grows the heap by n from the break it returns, or refuses; for an argument that is not positive it still returns a break, with no memory above it |
| `Umalloc.Allocator.Morecore` | umalloc.c:47-61 | at least the requested units and at least 4096 join the free list, or the system has refused; a header is written outside the heap (`wild`) exactly when the sbrk argument is not positive and is not refused |
| `Umalloc.Allocator.Malloc` | umalloc.c:64-90 | for every request: the search ends; a block of the right size, disjoint from all live ones, becomes live; 0 only if the system has refused; if some free block is large enough the system is not asked and the first such block behind the roving pointer gives its last units (next fit); the heap is left (`wild`) exactly for requests of about 2 GB and more that no free block meets and the system does not refuse |
| `PageTables.AddedTable` | vm.c:52-63 | a new page table changes no mapping and has one owner |
| `PageTables.AddedPage` | vm.c:82 | a new entry gives its page one owner |
| `PageTables.RemovedPage` | vm.c:263-270 | clearing an entry gives the page back to kernel code and keeps every other page's owner |
| `PageTables.RemovedTable` | vm.c:285-289 | the same for an empty page table |
| `VirtualMemory.Vm.constructor` | kalloc.c:46-52 | all pages of the range are free, each once |
| `VirtualMemory.Vm.Kalloc` | kalloc.c:83-95 | takes the first free page, or there is none |
| `VirtualMemory.Vm.Kfree` | kalloc.c:60-77 | puts a held page in front of the free list |
| `VirtualMemory.Vm.Walkpgdir` | vm.c:46-65 | finds the page table or makes it; no mapping changes; fails only without a free page |
| `VirtualMemory.Vm.MapPage` | vm.c:71-90 | maps one page and changes no other mapping in any address space; fails exactly when a table is missing and no page is free |
| `VirtualMemory.Vm.AddPage` | vm.c:231-240 | kalloc and mappages for one page: mapped, or refused without a free page, or the page is lost, exactly when it was the last one and a table was missing |
| `VirtualMemory.Vm.Allocuvm` | vm.c:221-243 | for every number of free pages: adds exactly the pages of the grown range, every byte of them zero, or restores the old map and returns 0, or returns the new size with the last page unmapped; a page is lost exactly when some page of the range gets the last free page and needs a table; other spaces are untouched |
| `VirtualMemory.Vm.Deallocuvm` | vm.c:250-273 | in any space, removes and frees every page from the new size on but those that the 4 MB skip passes over, and nothing else; the range is cleared if and only if no mapped page is passed over |
| `VirtualMemory.ClearedAll` | vm.c:257-272 | a shrink clears its whole range exactly when no mapped page lies in the part of the first present table that the 4 MB skip passes over |
| `VirtualMemory.ContiguousClears` | vm.c:257-262 | the skip passes over no page of a contiguous space |
| `VirtualMemory.GrownContiguous` | vm.c:221-243 | growing a contiguous space keeps it contiguous |
| `VirtualMemory.ShrunkContiguous` | vm.c:250-273 | shrinking keeps a contiguous space contiguous, and its lower pages as they were |
| `VirtualMemory.SkippedPage` | vm.c:257-262 | a valid space, made with setupkvm and one mapping, and a shrink of it after which a page of the range is still mapped |
| `VirtualMemory.Vm.Setupkvm` | vm.c:129-144 | a new space with an empty user half, exactly when there are pages for it and its tables; otherwise the pages taken so far stay with a directory that nobody returns (`leak`); other spaces untouched |
| `VirtualMemory.Vm.Copyuvm` | vm.c:310-336 | succeeds exactly with enough free pages, and then the new space has equal contents on pages that it does not share; on failure all old spaces are as they were and every page is free again, except the lost page or the leaked directory, whose exact conditions are given |
| `VirtualMemory.Vm.Freevm` | vm.c:278-292 | in any space, exactly its pages return to the free list and no other page changes its use |
| `UserCopy.Copyout` | vm.c:341-377 | the bytes up to the first page that is not mapped for user code are written across page boundaries, and no other byte of any space changes; 0 exactly when there is no such page; it dereferences a null pointer exactly when that page has no page table, and else returns -1 |
| `ShellTokens.GetToken` | sh.c:267-309 | the loops find the kind, bounds and successor of the next token |
| `ShellTokens.Peek` | sh.c:312-321 | skips whitespace and tells whether one of the characters comes next |
| `ShellParser.Cursor.Redirections` | sh.c:376-398 | the loop parses all redirections in order, or panics without a file name |
| `ShellParser.Cursor.SimpleCommand` | sh.c:417-447 | the argument loop, with redirections anywhere and at most nine arguments |
| `ShellParser.Cursor.ExecCommand` | sh.c:401-447 | a command or a parenthesised line |
| `ShellParser.Cursor.PipeCommand` | sh.c:363-373 | a pipe |
| `ShellParser.Cursor.LineCommand` | sh.c:346-360 | background marks and lists; the recursion through all of these ends |
| `ShellParser.Cursor.Command` | sh.c:329-343 | the whole line or a syntax error |
| `ShellParser.LineWords` | sh.c:346-447 | whatever line parses, every recorded slice is a whole word of it |
| `ShellTerminate.NulTerminate` | sh.c:451-494 | in place, a NUL at the end of every recorded slice and no other change |
| `ShellTerminate.TokensReadBack` | sh.c:329-343 | after parsing and terminating, every recorded slice reads as a C string equal to its token |
| `ShellPrint.SimpleCommand` | sh.c:417-447 | printed arguments and redirections parse back |
| `ShellPrint.ExecInverts` | sh.c:401-447 | printed commands, parenthesised or not, parse back |
| `ShellPrint.LineInverts` | sh.c:346-360 | printed lines parse back |
| `ShellPrint.ParserInvertsPrinter` | sh.c:329-447 | every well-formed command tree, with <, > and >>, is recovered from its printed form, all of which is consumed |
| `ShellBlanks.BlanksAlike` | sh.c:267-321 | lines that differ only in the kind of their blanks parse to the same command |
| `ShellBlanks.AnyBlanks` | sh.c:267-321 | printed command trees also parse back with any other blanks in place of the spaces |
| `ShellGrammar.TokensLexed` | sh.c:267-309 | the tokens cover all of the line but blanks, in order; words are runs of ordinary characters that cannot be longer, and two > are one token |
| `ShellGrammar.LineSound` | sh.c:346-447 | what the parser takes off a line is derived by the grammar, with the command that it returns |
| `ShellGrammar.LineComplete` | sh.c:346-447 | what the grammar derives, the parser takes off the line |
| `ShellGrammar.ParserDecides` | sh.c:329-447 | a line parses if and only if the grammar derives its tokens, with at most nine words a command and redirections anywhere among them, and every derivation has the command that the parser returns; all other lines panic |
| `Grep.Split` | grep.c:84-105 | a match of several items is a match of the first and, after it, of the others |
| `Grep.Matchstar` | grep.c:98-105 | true exactly when some repetition count of the star lets the rest match |
| `Grep.Matchhere` | grep.c:84-95 | true exactly when the text can be cut to fit the items; terminates by pattern length |
| `Grep.Match` | grep.c:72-81 | true exactly when the pattern means a match: at the start with ^, else at some position |
| `Grep.PlainPatterns` | grep.c:72-95 | patterns of characters and dots match exactly where they stand in the text: anywhere, at its start after ^, at its end before $, or as the whole text |
| `Grep.StarPatterns` | grep.c:84-105 | such patterns around a star match exactly the texts with a run of the starred character, which may be empty, between them |

## Left out

- FileSystem.Fs.Readi: device inodes are excluded, since the drivers behind `devsw` are not part of this model.
- FileSystem.Fs.Writei: device inodes are excluded, as for `Readi`.
- FileSystem.Fs.Filewrite: pipes, devices and negative counts are not modelled; the file is an open, writable inode.
- VirtualMemory.Vm.Copyuvm: permissions are not modelled (every child page is mapped writable by the code).
- VirtualMemory.Vm.MapPage: `mappages` for one page, as the user mappings use it; the kernel's own ranges are only counted as table pages in `Setupkvm`.
- ProcTable.AllocKin: `pid` is unbounded, so overflow of `nextpid` is not modelled.
- Umalloc.Allocator.Malloc: nothing is said of the heap after `wild`, because a header has been written outside it.
- Umalloc.Allocator.Sbrk: the new memory is taken to be usable, although `VirtualMemory.Vm.Allocuvm` shows that a growth can succeed with its last page unmapped; byte counts are multiples of a header, as the allocator asks for.
- UserCopy.Copyout: ranges that reach into the kernel half are excluded; which pages have lost PTE_U is a parameter, since permissions are not modelled.
- PipeLife.LifeStep: the failures of `pipealloc` are not modelled; a pipe begins with descriptors for both ends.
- MkfsTree.AddFile: fails when the inode table is full, where the original goes on into the next sector.
- VirtualMemory.Vm.Setupkvm: the kernel's mappings are only counted, as the table pages they take.
- VirtualMemory.Vm.Walkpgdir: addresses of the kernel half are excluded, as for `MapPage`.
- BufferCache.BCache.Bget: sleeping on a busy buffer, and the panic without a free one, are preconditions.
- RedoLog.Log.BeginTrans: waiting while another transaction is open is a precondition; the same holds for `FileSystem.Fs.Begin`.
- InodeCache.Icache.Ilock: the `I_BUSY` lock and sleeping on it are not modelled.
- Directory.Dirlookup: returns the inode number; the reference that `iget` takes is modelled in `icache.dfy`, and joined with it in `truncate.dfy` only.
- SysFile.SysUnlink: path lookup (`namex`) is not modelled; the directory that `nameiparent` found is a parameter and is still linked. The final `iput` calls are in `truncate.dfy`.
- SysFile.SysLink: path lookup and the references dropped at the end are not modelled; both inodes are parameters.
- SysFile.Create: path lookup and the reference returned are not modelled; the parent directory is a parameter.
- TruncateProgram.Truncate: the parsing of the size argument and the printed messages are not modelled; the name is that of a plain file in a directory of the tree, as a missing or other name only ends the program.
- MkfsTree.MakeImage: the disk has at most one bitmap sector, as in the original; reading the input files and the superblock are not modelled.
- `log.dfy` and `inode.dfy` are connected by the sequence of log_write calls that an operation makes, not by running the file system on the cache.
- Concurrent use of the file system: one transaction is open at a time, so the file operations are modelled one after the other.
- The inode sectors: inodes are kept as records beside the blocks, not as bytes of their sectors; the same holds for the superblock.
- The file table of `file.c` (`filealloc`, `filedup`), `sys_open`, `sys_dup` and descriptor slots: reference counting of the same kind as the inode cache, and easy.
- A byte of the bitmap is a sequence of eight bits; the shifts and masks are updates of one bit.
- `memmove`, `memset`, `strlen` and `safestrcpy`: byte copies without a property of their own.
- Weak memory ordering: `xchg` is one atomic step.
- Boot, traps, device drivers, segment and page-table registers, console and `printf`: hardware or user interface.
- `runcmd` and the user programs other than `truncate`, `sh` (its parser), `grep` (its matcher) and the allocator.
