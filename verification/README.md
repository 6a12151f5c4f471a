# Pintos and yashd in Dafny

A model of the parts of the repository that are hardest to get right, with
proofs of what they promise. `Project_3` is Pintos, a small x86 kernel;
`Project 2/yashd` is a shell daemon with its client.

`dafny verify dfyconfig.toml` checks everything. Integers are unbounded in
Dafny, so 32- and 64-bit arithmetic is written out wherever the code could
notice it. Code that works on a value is a function; code that changes an
object, an array or linked nodes is a class or a method with loops, proved
against a specification, and what the specification promises is proved about
whole runs.

| part | files | what is proved |
|---|---|---|
| file system | Bytes, Words, Disk, Bitmap, Directory, Layout, FsSpec, FsHistory, InodeTable, World, FsOps, FsCreate, FileSys, FsRun, FsSpace | the calls on 512-byte sectors refine files as byte sequences; every answer is what the calls before it call for; no sector is owned twice; what survives a restart; when a create succeeds; which sectors can leak |
| threads | Sched, Kernel, KernelSteps, Synch, SynchCalls | scheduler, semaphores, locks and condition variables under every interleaving: no lost wakeup, mutual exclusion, no lost signal, bounded waiting, first come first served, what each call has done when it returns |
| list sort | MergeOrder, ListSort | natural merge sort on a doubly linked list: sorted, stable, terminating |
| 64-bit division | Division | exact quotients, and for which divisors the remainders are exact |
| memory | Palloc, HeapModel, Malloc, MallocRuns | blocks do not overlap and keep their bytes over any run of requests; nothing leaks |
| user processes | Paging, PageTables, Process, Elf, Loader | page tables refine a map, as the processor reads them; an executable is loaded byte for byte, exactly when it can be; every page comes back |
| hash table | PowersOfTwo, HashTable | any run of operations behaves as a set; iteration visits everything once |
| sorting | HeapSort | heap sort and binary search |
| archives | Octal, Ustar, Archive, Fsutil | files survive a trip through an archive into another file system |
| shell grammar | ShellGrammar, Parser | one pass over the tokens accepts exactly a grammar |
| connection | Streams, Framing | what is typed arrives, line by line and in order, however reads and writes are cut |
| jobs | YashSessions, YashWorld, YashTables, YashInvariant, YashRuns, YashOwners, YashChildren, YashStories | when sessions of one daemon never touch each other's children and groups; their tables and pipes on every run; which children outlive a session |
| shared | Options, Sequences | |

Where the code does not do what its comments promise, the model follows the
code, and the exact condition is proved:

- `umod64` and `smod64` return 32 bits: exact for divisors up to 2^32 and up to
  2^31 in size (`Division.Umod64Exact`, `Division.Smod64Exact`, with
  `Division.Umod64Fails` and `Division.Smod64Fails`).
- `malloc` adds the header size in 32 bits: a block is as large as asked for
  exactly when size and header together are below 2^32
  (`Malloc.GrantedExact`, `Malloc.GrantedFails`), and otherwise the copy of
  `realloc` fits only if the old block lies in 4084 bytes (`Malloc.CopyFits`).
- A create that fails although there is room for the file leaves its data
  sectors marked (`FileSys.FileSystem.FilesysCreate`); nothing else leaks
  (`FsSpace.NothingElseLeaks`).
- The command line kept for a background job loses every trailing `&`, even
  one that belongs to a word (`Parser.KeptWords`, `Parser.KeptWordsDiffer`).
- A message of more than 4090 bytes is cut on the wire and loses its newline
  (`Framing.FrameCut`).
- A line typed while a command runs is its input, except that one which begins
  with `CTL ` is taken for a control message (`Framing.TypedIsHeard`).
- `session.c` says that no child outlives its client: the children of a job
  that `jobs_add` refuses do, and so do those that leave their process group
  (`YashChildren.Outlives`, `YashStories.RefusedOutlives`,
  `YashStories.StrayOutlives`).
- `jobs.c` says that waiting on a job's group keeps each thread to its own
  children: it does as long as no child joins a group that holds another
  session's, and no number is reused while a job goes by it
  (`YashOwners.OwnStatus`); without either it need not
  (`YashStories.JoinedOther`, `YashStories.NumberReused`).

## Model

| member | source | states |
|---|---|---|
| FsRun.Session | Project_3/filesys/file.c:10-158 | Any script of file-system calls, run on the sectors of the device, does exactly the calls of the script, and its results and its first and last states are a run of the specification of files as byte sequences (`FsSpec`); every result is the one that the calls before it, with their results, call for (`FsHistory`). A call on a handle that is not open is passed over. |
| FsRun.Execute | Project_3/filesys/filesys.c:48-98 | Whichever call it is, the sector-level code makes one step of the specification, keeps the device consistent, and succeeds in a create exactly when there is room, takes the first free sectors for a new file, clears exactly the sectors of a file that is gone, and otherwise leaves the map alone. |
| FsRun.Remount | Project_3/filesys/filesys.c:18-42 | Shutting down at any moment between two calls and starting again on the same sectors gives the same free map and exactly the files that have a name. |
| FsSpace.NothingElseLeaks | Project_3/filesys/filesys.c:48-64 | Over any run, the number of marked sectors that belong to no file grows by exactly the data sectors that failed creates abandon: every other sector taken is given back when its file is gone. |
| FsRun.OnlyLinkedSurvive | Project_3/filesys/filesys.c:38-42 | What the sectors alone hold is the named files; a file that was removed while open is lost with its handles. |
| FsSpec.LastWriteWins | Project_3/filesys/inode.c:231-291 | Over any run, a byte that one call stored and no later call stored is what the file still holds, however names, handles and other files came and went in between. |
| FsSpec.UnwrittenByteKept | Project_3/filesys/inode.c:231-291 | Over any run, a byte that no call stores keeps its value, and the file its length. |
| FsSpec.OpenFileSurvives | Project_3/filesys/inode.c:141-172 | Over any run, a file with an open handle stays, removed or not, and the handle goes on naming the same file. |
| FsSpec.UnlinkedStaysUnlinked | Project_3/filesys/inode.c:167-172 | Over any run, a removed file that is still open never gets a name again. |
| FsSpec.StepValid | Project_3/filesys/inode.c:141-163 | Every call keeps the files to exactly those that a name or an open handle leads to. |
| FsHistory.EveryAnswer | Project_3/filesys/file.c:10-158 | On every run since start-up, every call answers what the calls before it, with their answers alone, call for: the name or handle stands for the file last created or opened under it, a read gives what was last written to each byte and zeros in a new file, from where the last seek and the reads and writes since have brought the handle, and a write stores as much as is in range unless some handle of the file denies it. |
| FsHistory.DenyHolds | Project_3/filesys/inode.c:231-311 | From a deny of a handle to its next allow or close, every write through any handle of the file answers 0 and leaves its bytes. |
| FsHistory.NothingWritten | Project_3/filesys/inode.c:231-311 | A write answers 0 exactly when it is empty, starts past the end, or a deny through some handle of the file is in force. |
| FileSys.FileSystem.InodeWriteAt | Project_3/filesys/inode.c:231-291 | The chunked loop, with its partial sectors, replaces exactly the bytes in range and reports how many; it stores nothing past the end, nothing while writes are denied, and touches no sector outside the file. |
| FileSys.FileSystem.InodeReadAt | Project_3/filesys/inode.c:177-224 | The chunked loop delivers the slice of the file that lies in range. |
| FileSys.FileSystem.InodeCreate | Project_3/filesys/inode.c:52-84 | Succeeds exactly when there is a run of free sectors; then the first such run is marked, zeroed and owned by the new inode, and no other sector but those of the free map file changed. Otherwise nothing changed. |
| FileSys.FileSystem.InodeOpen | Project_3/filesys/inode.c:89-119 | An inode is in the table once: opening an open one counts a reference, any other is read from its sector. |
| FileSys.FileSystem.InodeClose | Project_3/filesys/inode.c:141-163 | The last close of a removed inode clears its header and data sectors and no others, and just this file is gone; any other close leaves device and map alone; names, other handles and surviving files stay. |
| FileSys.FileSystem.FreeMapAllocate | Project_3/filesys/free-map.c:29-44 | The first run of free sectors is marked in memory and, when the map file is open, in the stored map; a failure to store undoes it. |
| FileSys.FileSystem.FreeMapRelease | Project_3/filesys/free-map.c:47-53 | Exactly the given sectors are cleared, in memory and in the stored map. |
| FileSys.FileSystem.FreeMapOpen | Project_3/filesys/free-map.c:56-66 | The map read back is the one the file holds. |
| FileSys.FileSystem.Mount | Project_3/filesys/filesys.c:18-34 | On consistent sectors, start-up gives a valid state with those files and that map. |
| FileSys.FileSystem.Format | Project_3/filesys/filesys.c:101-111 | Formatting gives a valid, empty file system with only the sectors of the two system files marked. |
| FileSys.FileSystem.FileRead | Project_3/filesys/file.c:58-65 | One read step of the specification; the position moves by what was read. |
| FileSys.FileSystem.FileWrite | Project_3/filesys/file.c:85-92 | One write step of the specification; the position moves by what was written. |
| FileSys.FileSystem.FileReadAt | Project_3/filesys/file.c:72-76 | One positioned read of the specification; nothing changes. |
| FileSys.FileSystem.FileWriteAt | Project_3/filesys/file.c:101-106 | One positioned write of the specification. |
| FileSys.FileSystem.FileDenyWrite | Project_3/filesys/file.c:110-118 | One deny step of the specification; by `FsHistory.DenyHolds`, until it is allowed or closed no handle of the file can write. |
| FileSys.FileSystem.FileAllowWrite | Project_3/filesys/file.c:123-131 | One allow step of the specification, whether or not the handle had denied. |
| FileSys.FileSystem.FileReopen | Project_3/filesys/file.c:29-33 | One reopen step of the specification: a new handle at the start of the same file. |
| FileSys.FileSystem.FileClose | Project_3/filesys/file.c:36-44 | One close step of the specification: the handle is gone, and the file with it when it was removed and this was its last handle; closing a file that has a name frees no sector. |
| FileSys.FileSystem.FilesysCreate | Project_3/filesys/filesys.c:48-64 | One create step of the specification; it succeeds exactly when the name is valid and new, a directory slot is free and there are sectors for header and data, and takes the first ones. On failure the data sectors stay marked exactly when there was room for the file; otherwise nothing changed. |
| FileSys.FileSystem.FilesysOpen | Project_3/filesys/filesys.c:71-83 | One open step of the specification: a handle to the named file, or null exactly when there is none. |
| FileSys.FileSystem.FilesysRemove | Project_3/filesys/filesys.c:89-98 | One remove step of the specification: the name goes, open handles keep the file. |
| FileSys.FileSystem.Lookup | Project_3/filesys/directory.c:74-97 | Finds the first slot that holds the name, exactly when one does. |
| FileSys.FileSystem.DirAdd | Project_3/filesys/directory.c:127-169 | Succeeds exactly for a valid new name with a free slot in a writable directory, and then fills one free slot and nothing else. |
| FileSys.FileSystem.DirRemove | Project_3/filesys/directory.c:174-209 | Removes exactly the name given, if it is there, and forgets the file exactly when no handle has it open. |
| World.DeniedIff | Project_3/filesys/inode.c:295-311 | In every valid state, deny_write_cnt is nonzero exactly when some open handle denies writes. |
| World.AbsValid | Project_3/filesys/inode.c:141-163 | Between two calls every file of the device is one that a name or a handle leads to. |
| Layout.HeldReleased | Project_3/filesys/inode.c:141-163 | When an inode that no name and no handle leads to is given up, its sectors are marked and nobody else's, so clearing them harms no one. |
| Layout.EntryAdded | Project_3/filesys/directory.c:127-169 | A filled slot adds one binding and one owned inode, keeps the device consistent and changes no file but the directory. |
| Layout.EntryErased | Project_3/filesys/directory.c:174-209 | An erased slot removes one binding and leaves its inode to those who have it open. |
| FsCreate.FreeSlots | Project_3/filesys/directory.c:127-169 | A directory without double names has a free slot exactly when it has fewer names than slots. |
| FsCreate.EmptyFs | Project_3/filesys/filesys.c:101-111 | A freshly formatted device is consistent and holds no file. |
| Bitmaps.Bitmap.Scan | Project_3/lib/kernel/bitmap.c:300-316 | The first group of bits with the value, or an error exactly when there is none. |
| Bitmaps.Bitmap.ScanAndFlip | Project_3/lib/kernel/bitmap.c:325-334 | The first such group, flipped, with every other bit as it was. |
| Bitmaps.Bitmap.SetMultiple | Project_3/lib/kernel/bitmap.c:217-229 | Exactly the given bits get the value. |
| Bitmaps.Bitmap.ToBytes | Project_3/lib/kernel/bitmap.c:363-369 | The stored image decodes to the same bits. |
| Bitmaps.Bitmap.FromBytes | Project_3/lib/kernel/bitmap.c:348-359 | The bits read are those the image stands for, the unused bits of the last word masked out. |
| Sched.ApplyOk | Project_3/threads/thread.c:228-331 | Every operation of the scheduler keeps one running thread, the ready list to exactly the ready threads, each once, and the freed pages to exactly those of dying threads. |
| Sched.NeverRunsAgain | Project_3/threads/thread.c:531-558 | Over any run, a thread that is dying never runs again. |
| Sched.DispatchedBySchedule | Project_3/threads/thread.c:505-582 | Over any run, a thread at place k of the ready list runs by the (k + 1)-th call of schedule. |
| Sched.DispatchedByTicks | Project_3/threads/thread.c:132-154 | Over any run, it runs within 4 (k + 1) handled timer ticks, whatever the other threads do. |
| Sched.SliceKept | Project_3/threads/thread.c:132-154 | Over any run, a thread that does not give up the processor keeps it until the fourth timer tick after it was switched to, and then goes to the end of the ready list. |
| Sched.Play | Project_3/threads/thread.c:228-331 | Any script of blocking, unblocking, creating, yielding, exiting and ticking, on the scheduler object: up to the first call that an assertion of the code forbids, and no further, the object goes through a run of the scheduler steps, and the threads that ran are those of the run. |
| KernelSteps.StepInv | Project_3/threads/synch.c:61-338 | Every step of every thread, and every interrupt handler, between which a switch may happen, keeps the invariant on wait lists, counts, locks and signals. What the calls made of these steps have done when they return is stated by the rows of `SynchCalls`. |
| Synch.RunInv | Project_3/threads/synch.c:61-338 | So every state of every run from boot satisfies it. |
| Synch.NoLostWakeup | Project_3/threads/synch.c:61-121 | value + downs = init + ups; and a positive semaphore with waiters always has a woken thread, running or ready, that will test it again. |
| Synch.WokenRuns | Project_3/threads/synch.c:61-121 | Over any run, such a woken thread runs before four timer ticks have passed for each ready thread. |
| Synch.MutualExclusion | Project_3/threads/synch.c:190-235 | At most one thread is between acquiring and releasing a lock, including the windows before the holder is set and after it is cleared. |
| Synch.FreeLock | Project_3/threads/synch.c:207-220 | A lock's semaphore is 1 exactly when no thread is inside. |
| Synch.HolderAsserted | Project_3/threads/synch.c:285-338 | The assertions on the lock's holder in cond_wait, cond_signal and cond_broadcast hold. |
| Synch.TokenStep | Project_3/threads/synch.c:285-321 | A waiter's signal goes once from the list to a signaller's hand to its semaphore and is taken once; no step does anything else to it. |
| Synch.SignalNotLost | Project_3/threads/synch.c:285-321 | A signal that arrives before the waiter sleeps is not lost: its sema_down does not block. |
| Synch.NoStaleWaiter | Project_3/threads/synch.c:285-321 | A thread outside cond_wait has no element on any condition's list or in a signaller's hand. |
| Synch.BroadcastDrains | Project_3/threads/synch.c:329-338 | During a broadcast nobody joins the list; it only loses its head, to the broadcaster. |
| Synch.BroadcastEnds | Project_3/threads/synch.c:329-338 | A broadcast ends with the list empty. |
| Synch.CanGoOn | Project_3/threads/synch.c:61-338 | No thread is stuck between two steps: the next one is enabled. |
| Synch.OneListOnly | Project_3/threads/synch.c:61-121 | In every state of every run, a thread's elem is at one place of one list at most, and so is its element for cond_wait. |
| Synch.RunProjects | Project_3/threads/thread.c:228-331 | A run of the synchronisation code is a run of the scheduler, with all the assertions of thread.c met. |
| SynchCalls.WaitReturns | Project_3/threads/synch.c:285-301 | Over any run, when a thread that called cond_wait is next back, it holds the lock of the condition. |
| SynchCalls.AcquireReturns | Project_3/threads/synch.c:190-220 | Over any run, lock_acquire, and lock_try_acquire when it succeeds, return with the lock. |
| SynchCalls.ReleaseReturns | Project_3/threads/synch.c:225-235 | Over any run, lock_release returns without the lock. |
| SynchCalls.DownReturns | Project_3/threads/synch.c:61-101 | Over any run, sema_down, and sema_try_down when it succeeds, return with exactly one unit taken, however often the thread slept and others were faster. |
| SynchCalls.SignalReturns | Project_3/threads/synch.c:309-321 | Over any run, cond_signal gives its signal to the thread that has waited longest, before it returns. |
| SynchCalls.BroadcastReturns | Project_3/threads/synch.c:329-338 | Over any run, cond_broadcast signals every thread that waited when it was called, before it returns. |
| SynchCalls.InTurn | Project_3/threads/synch.c:61-121 | Over any run, a thread waiting on a semaphore or a condition stays in line until those before it have been served, and moves up one place for each up or signal. |
| SynchCalls.TurnComes | Project_3/threads/synch.c:107-121 | Over any run, a thread with p others before it leaves the line at the (p + 1)-th up or signal, as the first. |
| Synch.Semaphore.DownOnce | Project_3/threads/synch.c:61-76 | One turn of sema_down takes a unit or joins the waiters and blocks. |
| Synch.Semaphore.TryDown | Project_3/threads/synch.c:83-101 | Takes a unit exactly when there is one. |
| Synch.Semaphore.Up | Project_3/threads/synch.c:107-121 | Adds a unit and wakes the first waiter. |
| ListSort.List.Sort | Project_3/lib/kernel/list.c:409-443 | On a doubly linked list with any strict weak order: the same elements, in order, and stable: elements that compare equal stay in the order they were in; the links are well formed at the end, and the repeated passes end. |
| ListSort.List.Pass | Project_3/lib/kernel/list.c:409-443 | One pass rearranges stably and counts the runs it leaves; while it counts more than one, the list has strictly fewer runs than before. |
| ListSort.List.InplaceMerge | Project_3/lib/kernel/list.c:384-404 | Two adjacent sorted ranges become one, stably, and nothing outside moves. |
| ListSort.List.FindEndOfRun | Project_3/lib/kernel/list.c:364-377 | The longest sorted run from the start. |
| ListSort.List.Splice | Project_3/lib/kernel/list.c:182-204 | The six link assignments move exactly the given elements to their new place. |
| Division.Udiv64 | Project_3/lib/arithmetic.c:75-121 | The quotient of any two 64-bit numbers with a nonzero divisor; divl never traps and no step wraps. |
| Division.Nlz | Project_3/lib/arithmetic.c:41-71 | Shifting by the result sets the top bit and loses none. |
| Division.Umod64 | Project_3/lib/arithmetic.c:125-129 | The low 32 bits of the remainder. |
| Division.Umod64Exact | Project_3/lib/arithmetic.c:125-129 | That is the remainder for every dividend exactly when the divisor is at most 2^32. |
| Division.Umod64Fails | Project_3/lib/arithmetic.c:125-129 | For every larger divisor, the dividend 2^32 gives 0 instead of the remainder 2^32. |
| Division.Sdiv64 | Project_3/lib/arithmetic.c:133-141 | The quotient rounded toward zero, in 64 bits. |
| Division.Sdiv64Exact | Project_3/lib/arithmetic.c:133-141 | It is the true quotient exactly when the pair is not the smallest number and -1. |
| Division.Smod64 | Project_3/lib/arithmetic.c:145-149 | The low 32 bits, signed, of the remainder. |
| Division.Smod64Exact | Project_3/lib/arithmetic.c:145-149 | It is the remainder for every dividend exactly when the divisor is at most 2^31 in size. |
| Division.Smod64Fails | Project_3/lib/arithmetic.c:145-149 | For every larger divisor, the dividend 2^31 gives the remainder with the wrong sign. |
| Palloc.Pool.GetMultiple | Project_3/threads/palloc.c:72-104 | The first run of free pages is taken, or null exactly when there is none or no page was asked for. |
| Palloc.Pool.FreeMultiple | Project_3/threads/palloc.c:120-147 | Exactly the pages given are free again. |
| Palloc.PageAllocator.GetPage | Project_3/threads/palloc.c:113-117 | A page that was not in use, from the pool asked for, or null exactly when all its pages are in use. |
| Palloc.InOnePool | Project_3/threads/palloc.c:181-189 | page_from_pool tells the two pools apart by address. |
| HeapModel.LiveApart | Project_3/threads/malloc.c:86-151 | In every valid heap, blocks in use do not overlap. |
| HeapModel.RoomApart | Project_3/threads/malloc.c:177-185 | All the block_size bytes behind a block are its own. |
| HeapModel.LiveClearOfHeaders | Project_3/threads/malloc.c:256-283 | Blocks in use do not overlap an arena header. |
| HeapModel.ArenaInUse | Project_3/threads/malloc.c:213-253 | No page is kept for nothing: every arena has a block in use. |
| HeapModel.AllFreed | Project_3/threads/malloc.c:213-253 | Once every block is freed, no arena is left, the lists are empty and only other code's pages are marked. |
| Malloc.Allocator.constructor | Project_3/threads/malloc.c:69-82 | The descriptors of malloc_init give a valid, empty heap. |
| Malloc.Allocator.Malloc | Project_3/threads/malloc.c:86-151 | Null exactly for no bytes or when neither a free block nor pages are there, and then nothing changes; otherwise a block of its own, every other block as it was. |
| Malloc.GrantedExact | Project_3/threads/malloc.c:106-122 | A block that is handed out has the bytes asked for exactly when the size and the 12 bytes of a header are together below 2^32. |
| Malloc.GrantedFails | Project_3/threads/malloc.c:106-122 | The eleven sizes above 2^32 - 12 are handed out a block of 4084 bytes, exactly when there is a free page. |
| Malloc.CopyFits | Project_3/threads/malloc.c:193-209 | What realloc copies fits the new block exactly when the sum of size and header does not wrap around or the old block lies in no more than 4084 bytes. |
| Malloc.BigPagesFewest | Project_3/threads/malloc.c:106-122 | A big block takes the fewest pages that hold it and its header; sizes that cannot be rounded up in 32 bits are refused, and those that wrap around with the header get one page. |
| HeapModel.PerArenaMost | Project_3/threads/malloc.c:69-82 | An arena has as many blocks as fit behind its header. |
| Malloc.Allocator.Free | Project_3/threads/malloc.c:213-253 | The block is free and every other block in use keeps its bytes; a wholly free arena gives its page back. |
| Malloc.Allocator.Realloc | Project_3/threads/malloc.c:193-209 | For every 32-bit size whose copy fits: a new block that holds the old contents as far as both reach, in place of the old one, exactly when malloc can serve the size; otherwise nothing changes; no bytes frees the block. All other blocks keep their bytes. |
| MallocRuns.Play | Project_3/threads/malloc.c:86-253 | Any script of requests, for blocks and of other code for pages, is served request by request: each gives or takes exactly what it asks for, when it can be served, and the heap is valid after each. |
| MallocRuns.UnnamedKept | Project_3/threads/malloc.c:86-253 | Over any run, a block that no request names keeps its place, its size and its bytes. |
| MallocRuns.LastStored | Project_3/threads/malloc.c:86-253 | Over any run, a byte of a block is what was last stored there, through all resizes that do not cut it off. |
| MallocRuns.AllGivenBack | Project_3/threads/malloc.c:213-253 | Any run from an empty heap that ends by releasing all that was granted leaves no arena and the used map as it was. |
| MallocRuns.Run | Project_3/threads/malloc.c:86-253 | A script, and then the release of whatever its callers have: what the allocator goes through is the run that these requests ask for, and the used map is what it was. |
| Paging.PteIs | Project_3/threads/pte.h:93-110 | The word for a page is its physical address with the present and user bits, and the write bit if it may be written. |
| Paging.PdeIs | Project_3/threads/pte.h:74-82 | The word for a page table is its physical address with the present, write and user bits. |
| Paging.PteRoundTrip | Project_3/threads/pte.h:105-117 | A page table entry gives back its frame, that it is present and the user's, and whether it may be written. |
| Paging.PdeRoundTrip | Project_3/threads/pte.h:74-88 | A directory entry gives back its page table, and is present, writable and the user's. |
| PageTables.MapOk | Project_3/userprog/pagedir.c:103-123 | Setting one entry adds one page to the translation and changes nothing else; no two pages share a frame. |
| PageTables.UnmapOk | Project_3/userprog/pagedir.c:148-161 | Clearing the present bit removes one page from the translation. |
| PageTables.WalkIs | Project_3/userprog/pagedir.c:103-142 | The walk that the processor makes for user code, through the bits of the two entries, finds exactly the pages of the translation, each byte where it is, and lets exactly the writable ones be written. |
| Process.Proc.PagedirCreate | Project_3/userprog/pagedir.c:18-27 | An empty translation, or failure exactly when the kernel pool is empty. |
| Process.Proc.LookupPage | Project_3/userprog/pagedir.c:63-92 | The table and entry of an address; making a table changes no translation, and fails exactly when one is needed and the kernel pool is empty. |
| Process.Proc.SetPage | Project_3/userprog/pagedir.c:103-123 | The translation gains exactly this page. |
| Process.Proc.GetPage | Project_3/userprog/pagedir.c:129-142 | The kernel address that the translation gives, or null exactly when there is none. |
| Process.Proc.ClearPage | Project_3/userprog/pagedir.c:148-161 | The translation loses exactly this page; its frame stays taken. |
| Process.Proc.InstallPage | Project_3/userprog/process.c:477-486 | Succeeds exactly when the page is not mapped and a page table is there or can be made; then the memory gains exactly this page. |
| Process.Proc.PagedirDestroy | Project_3/userprog/pagedir.c:31-55 | Every frame, every page table and the directory go back to their pools, each once. |
| Process.Proc.ProcessExit | Project_3/userprog/process.c:111-132 | The process keeps no page but frames that no page was mapped to. |
| Process.PagesTaken | Project_3/userprog/pagedir.c:63-123 | A process takes one kernel page for its directory and each page table, and one user page for each page it sees. |
| Process.UserSees | Project_3/userprog/pagedir.c:103-142 | What user code finds at any address, through that walk, is exactly the memory of the process. |
| Loader.Load | Project_3/userprog/process.c:220-327 | Succeeds exactly when the headers are accepted, the segments lie in the file and do not overlap each other or the stack, and the two pools have enough pages; then memory holds every segment byte for byte with zeros behind it and the right write bits, a stack of zeros, and nothing else. |
| Loader.LoadSegment | Project_3/userprog/process.c:400-443 | Succeeds exactly when the bytes are in the file, the pages not in use and there is room for them; then these pages hold them. |
| Loader.LoadHeader | Project_3/userprog/process.c:259-311 | The same for one program header, from the numbers in it. |
| Loader.SetupStack | Project_3/userprog/process.c:447-466 | A writable page of zeros below PHYS_BASE, exactly when that page is free and fits. |
| Loader.LoadThenExit | Project_3/userprog/process.c:111-132 | A load and then process_exit: the load succeeds exactly when the executable can be loaded, and then the process holds the program, in one user page for each page of memory and one kernel page for the directory and each page table; after the exit both pools are as before, whether or not it succeeded. |
| Elf.ValidSegmentMeans | Project_3/userprog/process.c:335-384 | validate_segment's checks, with their 32-bit sums, pass exactly for segments that satisfy plain bounds, without wrap-around. |
| Elf.EhdrRead | Project_3/userprog/process.c:165-180 | Of an executable header written field by field, load reads the entry point, the place and the number of program headers, and accepts exactly the values it should. |
| Elf.TableRead | Project_3/userprog/process.c:185-194 | Of a table of program headers written one after the other, field by field, header i is read as the i-th. |
| Elf.NoWrap | Project_3/userprog/process.c:285-303 | No sum or rounding in load wraps around for a segment that passed the check. |
| Elf.PagesAreSegment | Project_3/userprog/process.c:285-303 | The pages that load cuts a segment into hold p_filesz bytes of the file at p_vaddr, then zeros. |
| HashTable.Run | Project_3/lib/kernel/hash.c:96-154 | Any run of insert, replace, find and delete, whether or not memory is there for each rehash, answers as a set does, and no other answers would do; each answer is the equal element last put in and not taken out since; the count is the size of the set in every state. |
| HashTable.OneOutcome | Project_3/lib/kernel/hash.c:96-154 | What an operation answers and leaves is determined by the set and the operation. |
| HashTable.AnswersKept | Project_3/lib/kernel/hash.c:96-154 | On any run, every operation answers with the equal element that the operations before it leave in, told from these alone. |
| HashTable.Table.Insert | Project_3/lib/kernel/hash.c:96-109 | The equal element that was there, or none and the element is in; with memory, fewer than four elements a bucket. |
| HashTable.Table.Replace | Project_3/lib/kernel/hash.c:113-127 | The element takes the place of the equal one. |
| HashTable.Table.Find | Project_3/lib/kernel/hash.c:131-135 | The equal element of the set, exactly when there is one. |
| HashTable.Table.Delete | Project_3/lib/kernel/hash.c:144-154 | The equal element leaves the set. |
| HashTable.Table.Clear | Project_3/lib/kernel/hash.c:51-71 | The set is empty, and the destructor saw each element once. |
| HashTable.Table.Rehash | Project_3/lib/kernel/hash.c:350-413 | The same elements, each in the bucket where it will be looked for, in as many buckets as the largest power of two that is at most half the number of elements and at least 4. |
| HashTable.LoadFactor | Project_3/lib/kernel/hash.c:350-413 | That number keeps fewer than four, and above 4 buckets at least two, elements a bucket. |
| HashTable.Visit | Project_3/lib/kernel/hash.c:197-231 | The iteration idiom visits each element exactly once. |
| PowersOfTwo.MaskIsMod | Project_3/lib/kernel/hash.c:303-309 | Masking with bucket_cnt - 1 is the remainder for a power of two. |
| PowersOfTwo.TurnOffKeepsTop | Project_3/lib/kernel/hash.c:328-339 | Turning off the least of several bits gives a smaller number with the same top bit, so that the loop of rehash ends at the top bit. |
| HeapSort.Sort | Project_3/lib/stdlib.c:134-155 | In order, and a permutation of what was there, for any total preorder. |
| HeapSort.Heapify | Project_3/lib/stdlib.c:97-126 | The element floats down until the heap is in order again. |
| HeapSort.BinarySearch | Project_3/lib/stdlib.c:187-210 | A match, exactly when there is one, in an array in order. |
| HeapSort.SortAndSearch | Project_3/lib/stdlib.c:187-210 | Searching what was sorted finds a match exactly when the array had one before. |
| Ustar.HeaderRoundTrip | Project_3/lib/ustar.c:81-220 | A header that was made is parsed to the stripped name, the type and the size it was made from. |
| Ustar.MakeHeader | Project_3/lib/ustar.c:81-116 | Refuses exactly names of more than 99 bytes after stripping; otherwise the bytes of the header. |
| Ustar.StripTwice | Project_3/lib/ustar.c:63-72 | Stripping a name again changes nothing. |
| Ustar.StripIs | Project_3/lib/ustar.c:63-72 | Stripping takes off all leading pieces /, ./ and ../ and nothing else; a dot stands for a rest that is empty or .. |
| Ustar.Splits | Project_3/lib/ustar.c:63-72 | Every name is such pieces and a rest that does not begin with one, so that this covers all names. |
| Ustar.StripKeeps | Project_3/lib/ustar.c:63-72 | A name is left as it is exactly when it is not empty, is not .. and does not begin with such a piece. |
| Ustar.HeaderLayout | Project_3/lib/ustar.c:81-116 | The bytes of a header, field by field: name, mode, owner and group, size, time, the sum of all bytes with spaces in its own field, type, magic, version and the two names. |
| Ustar.SumIndependent | Project_3/lib/ustar.c:35-52 | The checksum does not depend on the field that holds it. |
| Ustar.Parse | Project_3/lib/ustar.c:174-220 | A header is accepted as an entry exactly when every field that is looked at describes that entry and the checksum is right; it is the end of the archive exactly when it is all zeros; else an error. |
| Ustar.ParsedIff | Project_3/lib/ustar.c:174-220 | The tests of the code, in their order, decide exactly this. |
| Ustar.ParsedRemade | Project_3/lib/ustar.c:81-220 | Making the header of what was parsed, and parsing that, gives the same entry again. |
| Ustar.OneByteWrong | Project_3/lib/ustar.c:35-52 | An accepted header with one byte changed is never taken for another entry: it is refused, or the byte was in the checksum field and did not matter. |
| Octal.FieldRoundTrip | Project_3/lib/ustar.c:127-153 | A number that fits its field is read back from it. |
| Octal.FieldSpells | Project_3/lib/ustar.c:81-116 | Each byte of the field of a number that fits is the octal digit of its place, and a zero byte ends it. |
| Octal.ParseOctalField | Project_3/lib/ustar.c:127-153 | The number that the field means, or failure exactly for a missing or bad terminator or a number that does not fit. |
| Octal.MeaningIff | Project_3/lib/ustar.c:127-153 | A field means a number exactly when it is octal digits of that number and a terminator. |
| Octal.FormatInteger | Project_3/lib/stdio.c:450-535 | The octal conversion with zero flag: the digits of the value, zeros in front up to the width. |
| Archive.ArchiveRead | Project_3/filesys/fsutil.c:77-162 | Reading an archive gives the files that were put there, in order. |
| Fsutil.Append | Project_3/filesys/fsutil.c:172-234 | Succeeds exactly when the file is there, its header can be made and the archive has room; then the archive gains this member and the file system is as it was. |
| Fsutil.Extract | Project_3/filesys/fsutil.c:77-162 | Succeeds exactly when the archive can be read to its end and every member can be made in turn; then the file system gains these members, and the archive is erased. |
| Fsutil.Transfer | Project_3/filesys/fsutil.c:77-234 | Files put into an archive and extracted into a new file system: it succeeds exactly when all are there, the archive fits its device, there are at most 16 and the new device has the sectors; then names and contents are the same. |
| Fsutil.FitsFresh | Project_3/filesys/fsutil.c:77-162 | On a new device members can be made one after the other exactly when there are slots and sectors for all of them. |
| ShellGrammar.ParseIffGrammar | Project 2/yashd/server/src/parse.c:71-119 | The single pass over the tokens accepts exactly the lines of the grammar, and finds what the line means. |
| ShellGrammar.OperatorsMean | Project 2/yashd/server/src/parse.c:26-43 | What the five operators mean, for any words around them. |
| Parser.ParseLine | Project 2/yashd/server/src/parse.c:45-140 | Accepts exactly the lines of the grammar that keep MAX_LINE and MAX_TOKENS; the line kept for a background job is cut at its trailing & and blanks; empty lines are told apart. |
| Parser.Tokenize | Project 2/yashd/server/src/parse.c:11-24 | The words between blanks, or failure exactly when there are too many. |
| Parser.ReadPrinted | Project 2/yashd/server/src/parse.c:45-140 | Printing a job and parsing the line gives the job back exactly when the line keeps MAX_LINE. |
| ShellGrammar.PrintedMeans | Project 2/yashd/server/src/parse.c:71-119 | A printed job means that job and no other. |
| Parser.KeptWords | Project 2/yashd/server/src/parse.c:121-133 | The line kept for a background job has the words of the command exactly when the last of them does not itself end in &. |
| Parser.KeptWordsDiffer | Project 2/yashd/server/src/parse.c:121-133 | A line for which it has not. |
| Framing.Session.TakeLine | Project 2/yashd/server/src/session.c:101-123 | The first complete line leaves the buffer, without its newline and one carriage return, or nothing changes exactly when there is none. |
| Framing.Session.Fill | Project 2/yashd/server/src/session.c:126-139 | The bytes read go behind what is there; a buffer full of one line is dropped. |
| Framing.Session.ReadSocket | Project 2/yashd/server/src/session.c:141-158 | Takes one line, reading as often as it takes; how many bytes and lines are taken is a function of the stream and of how reads cut it. |
| Framing.Session.Pump | Project 2/yashd/server/src/session.c:255-282 | All complete lines are taken, in order, and none is lost. |
| Framing.Wire.SendAll | Project 2/yashd/client/src/client.c:97-112 | However writes are cut and interrupted, the connection becomes what the system's answers determine: all bytes are sent, or the first of them and then an answer was a failure or missing. |
| Framing.PutsAllMeans | Project 2/yashd/client/src/client.c:97-125 | For any answers and messages, what has been sent is all of their bytes in order, or the first of them when an answer was a failure or missing. |
| Framing.AllPut | Project 2/yashd/client/src/client.c:97-125 | If as many answers make headway as there are bytes, all of them are sent. |
| Framing.Client.SendMsg | Project 2/yashd/client/src/client.c:114-125 | While all messages so far fit the buffer, the connection is exactly what sending the messages in order, with the given answers, leaves. |
| Framing.FrameCut | Project 2/yashd/client/src/client.c:114-125 | A command arrives whole exactly when it has at most 4090 bytes; a longer one loses its newline. |
| Framing.Client.OnStdin | Project 2/yashd/client/src/client.c:260-274 | The complete lines typed become messages in order, by the prompt flag; a line that fills the buffer is dropped. |
| Framing.Client.OnEof | Project 2/yashd/client/src/client.c:242-258 | What was typed before the end of input is sent first, then CTL d. |
| Framing.CutsDoNotMatter | Project 2/yashd/client/src/client.c:260-274 | How reads cut what is typed does not matter. |
| Framing.EndToEnd | Project 2/yashd/server/src/session.c:101-158 | Whatever arrived of plain messages, the lines taken are the first messages, unchanged; all of them when all arrived. |
| Framing.Conversation | Project 2/yashd/client/src/client.c:165-281 | Any interleaving of typing, signals, prompts and reads on both sides, with writes and reads cut and answered in any way: the client makes the messages that the typing stands for and sends them as far as the answers allow; the session sees the first of them, unchanged, as many as the bytes that arrived hold; the connection breaks only where an answer says so. |
| Framing.OneConversation | Project 2/yashd/client/src/client.c:165-281 | What is sent, has arrived and is seen after each event is determined by what was typed, read and answered. |
| Framing.TypedIsHeard | Project 2/yashd/server/src/session.c:232-253 | The first line typed at a prompt is taken for a command, and quit is not sent; lines typed while it runs are taken for its input, except exactly those that begin with the prefix of control messages. |
| Framing.KeysAreHeard | Project 2/yashd/server/src/session.c:162-190 | Ctrl-c interrupts, ctrl-z stops and the end of input ends the input of the foreground job, whatever the session is at. |
| YashTables.RunTables | Project 2/yashd/server/src/jobs.c:51-280 | In every state of every interleaving of sessions and children, whatever the children do and waitpid answers: tables are in order, a job without children is only where the code deals with it, and a session's open write ends are exactly those its table and the job it is starting hold. |
| YashTables.ClosedOnce | Project 2/yashd/server/src/exec.c:114-138 | On every run, a write end that a step closes was open and the session's own. |
| YashTables.NothingLeft | Project 2/yashd/server/src/session.c:32-40 | On every run, a session that is gone has no write end open and no job. |
| YashTables.AtPrompt | Project 2/yashd/server/src/session.c:286-308 | On every run, at the prompt no job is in the foreground, every job of the table has children to wait for, and job numbers ascend. |
| YashTables.ReportedOnce | Project 2/yashd/server/src/jobs.c:184-202 | On every run, a job is reported done at most once. |
| YashTables.FgTakes | Project 2/yashd/server/src/builtins.c:10-34 | On every run, fg brings forward the job with the greatest number, Running, and continues exactly its group, exactly when it was stopped. |
| YashTables.BgTakes | Project 2/yashd/server/src/builtins.c:37-49 | On every run, bg continues the stopped job with the greatest number, in the background, and exactly its group; without a stopped job it does nothing. |
| YashSessions.FindNewest | Project 2/yashd/server/src/jobs.c:99-119 | The loop that keeps the last job it finds gives the newest that qualifies, or none exactly when none does. |
| YashTables.EnterNumbers | Project 2/yashd/server/src/jobs.c:51-79 | On every run, a job is entered at the end of the table, under the last number plus one, or 1 in an empty table; exactly when it has a child, there is room in the table and memory for it. |
| YashTables.StateIs | Project 2/yashd/server/src/jobs.c:151-202 | On every run, a job that is not done is in the state that was last told about it: stopped or continued by waitpid, or resumed by fg or bg. |
| YashTables.EndsForGood | Project 2/yashd/server/src/session.c:286-308 | On every run, a session that was told to quit or has lost its client never reads another line. |
| YashTables.QuitHeeded | Project 2/yashd/server/src/session.c:286-308 | On every run, the loop of a session begins again only when it has not been told to quit. |
| YashOwners.OwnStatus | Project 2/yashd/server/src/jobs.c:143-182 | As long as no child of one session joins a group that holds another's and fork does not reuse a number that a job goes by, no wait takes a status of a child that another session forked; children may otherwise leave their groups and join others. |
| YashOwners.OwnGroup | Project 2/yashd/server/src/jobs.c:213-280 | On the same runs, no signal goes to a child of another session or to the daemon's own group. |
| YashStories.JoinedOther | Project 2/yashd/server/src/jobs.c:151-182 | A run on which a child joins another session's group and that session takes its status. |
| YashStories.NumberReused | Project 2/yashd/server/src/jobs.c:151-182 | A run on which the number of a group whose last child left is given to another session's child, and its status is taken. |
| YashRuns.RunInv | Project 2/yashd/server/src/jobs.c:51-280 | On every run on which no child joins another job's group and no number in use is reused (children may leave): each job's group holds exactly the job's children that have not left it, and its count is that of its children. |
| YashRuns.StayingOrderly | Project 2/yashd/server/src/jobs.c:143-182 | A run on which no child changes its group is such a run: nothing about numbers has to be taken for granted. |
| YashOwners.OrderlyCivil | Project 2/yashd/server/src/jobs.c:143-182 | Such runs satisfy what `YashOwners.OwnStatus` and `YashOwners.OwnGroup` ask for. |
| YashRuns.NoChildOnlyStrays | Project 2/yashd/server/src/jobs.c:161-166 | On such a run, waitpid says that there is no child only when the children that the job still counts have all left its group. |
| YashRuns.SignalsTo | Project 2/yashd/server/src/jobs.c:249-280 | On such a run, a group that is signalled is that of a job with children, and it is empty only when they have all left it. |
| YashRuns.CountExact | Project 2/yashd/server/src/jobs.c:151-182 | On such a run, at the prompt, the count of a job is the number of its children that have not been reaped. |
| YashRuns.DoneReaped | Project 2/yashd/server/src/jobs.c:184-202 | On such a run, when a job has been reported done, every process forked for it has been reaped but for those that left its group, which are still there. |
| YashChildren.Outlives | Project 2/yashd/server/src/session.c:32-40 | On such a run, the children that outlive a session are those of the jobs that jobs_add refused and those that left their groups, all of them and no others. |
| YashStories.StrayOutlives | Project 2/yashd/server/src/jobs.c:161-166 | A run of sleep 1 | setsid sleep 1000 on which nothing is refused and the second child outlives its client. |
| YashStories.RefusedOutlives | Project 2/yashd/server/src/exec.c:123-130 | A run on which a child of a refused job does. |

## Left out

- FileSys.FileSystem.Format: needs a device with room for the system files, as the code panics otherwise; devices of more than 2^28 sectors are not modelled.
- FileSys.FileSystem.FilesysCreate: names with a zero byte and sizes above the largest 32-bit signed number cannot be passed in C and are not modelled.
- FileSys.FileSystem.InodeReadAt: offsets are not negative, and the failure to allocate a bounce buffer is not modelled; buffers are sequences.
- FileSys.FileSystem.InodeOpen: the failure to allocate an inode, a file or a directory in memory is not modelled.
- Files: dir_readdir, the ls, cat and rm commands, and directories other than the root.
- Synch.Semaphore.Up: a semaphore's value does not wrap around at 2^32.
- Sched.Play: thread ids and thread pages are not used again, the time before the idle thread has first blocked is not modelled, and the interrupt frame and stack switch are one assignment.
- ListSort.List.Splice: moves elements within one list, which is how list_sort uses it.
- Palloc.Pool.GetMultiple: the lock around it, the zeroing flag and the division of memory into pools at start-up are not modelled.
- Malloc.Allocator.Realloc: not for the calls whose copy runs past the new block, which Malloc.CopyFits tells apart; what memory holds after such a copy is not modelled.
- MallocRuns.Play: a request that names a block or pages which no caller has is passed over, and so is a realloc whose copy would not fit.
- Malloc.Allocator.Free: arena headers and list links are kept as values beside the bytes of the pool, the locks are not modelled, and calloc is left out.
- Process.Proc.SetPage: for a page that is not mapped, as its assertion demands; accessed and dirty bits, the kernel part of a directory and the processor's cache of translations are not modelled.
- Process.Proc.ClearPage: the frame of a cleared page stays taken, as in the code; who frees it is not modelled.
- Loader.Load: the executable does not change while it is read; the arguments on the stack and start_process are left out.
- HashTable.Table.Insert: the number of elements does not wrap around; hash_apply and the hash functions are left out.
- HeapSort.Sort: elements are swapped as values, not byte by byte.
- Octal.FormatInteger: only the conversion that headers use; the rest of printf is left out.
- Fsutil.Transfer: for at least one name, names that differ and names that stripping does not change; the kernel panics where it fails, and what it leaves then is not stated.
- Parser.ParseLine: a line is a string without zero bytes.
- Framing.Conversation: for typed lines that fit the buffers and are not themselves cut; otherwise Framing.Client.OnStdin and Framing.FrameCut say what happens.
- YashRuns.RunInv: for runs on which no child joins another job's group and fork gives no number that a job still goes by; YashTables.RunTables has no such condition.
- YashOwners.OwnStatus: fork and setpgid are one step that does not fail, and the read ends and the pipe between two commands are not modelled.
- The daemon's logging, sockets and start-up, the client's terminal, the drivers and system calls of Pintos, and the other projects of the repository.
