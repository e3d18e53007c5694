# Verified models of four operating-system projects' hard parts

The repository holds a user-level thread library (`project_2`), a demand-paging system (`project_3`) and
a small inode file system (`project_4`). This project models the parts of them that keep state, and
proves what they promise over whole runs. `dafny verify dfyconfig.toml` checks everything.

Each of the three systems has the same layers. Pure functions say what every operation does to the
state, branch by branch. Lemmas prove that every operation keeps the invariants and means what it should
at the level of the user, and lift that to every run. Classes restate the operations with the loops,
arrays and linked structures of the source, and every method is proved against its pure function or the
invariants. `Common` holds what the three share.

**File system** (`project_4`). Modules `DataStructures`, `CacheSpec`, `FsSpec`: disk, inode cache, the
calls of `fs.h`. `FsInvariant`, `FsSpace`, `FsWriteProof`, `FsFile`, `FsScan`, `FsSparse`, `FsHoles`: block
ownership, space, the read and write loops, the pointer scans, writes that leave holes. `CacheProof`,
`LruStack`: the write-back cache is transparent and is least-recently-used. `FsAbstract`,
`FsRefinement`, `FsUpdates`, `FsMounting`, `FsRuns`: the refinement of a map from inumbers to byte strings,
for one call and for every run. `LruCache`, `SimpleFs`, `Shell`: the programs.

**Threads** (`project_2`). `Queues`; `Monitor`, `MonitorProof`, `MonitorRuns`: locks and Hoare condition
variables as a transition system with arbitrary preemption. `BoundedBuffer`, `BoundedBufferProof`,
`BoundedBufferRuns`: the producer and consumer program statement by statement. `HoareThreads`, `Uthread`: the
programs; `UthreadRuns`: their time slices.

**Paging** (`project_3`). `Paging`, `PagingProof`, `PagingRuns`; `PagingHistory`: the choice of a victim in terms of what a
run has done; `PagingProgram`: the program.

What the code asks of its callers (and what happens otherwise is proved where the table says so):

- File system: mount only when unmounted; inumbers are not negative; a write leaves no hole, and does not
  go on past the largest file on a disk that has the blocks for all of it; create does not pick an
  inumber that an earlier `getsize` or `delete` of an unused file has put into the cache; fewer resident
  inodes have been deleted since mount than the cache capacity, unless that is 0. Each of the last four is
  the exact condition under which the code works, with a proof of what happens otherwise. The last inode
  block is never usable, because the code compares a block number that starts at 1 with the number of inode
  blocks (`project_4/inode_utilities.h:9`); calls on its inumbers are modelled as the refusals they are.
- Threads: `lock` is not re-entrant, the other calls are made by the owner, no thread is woken while a
  signaller is still to get the lock back, and at most one thread joins another. For the bounded buffer all
  of this is proved, not assumed.
- Paging: at least one frame.

Where the documentation and the code disagree, the model follows the code:

- `project_4/fs.h:40-43` says that a write beyond the largest file writes what fits. The loop
  (`project_4/fs.c:344-366`) does not check, and indexes the pointer block out of bounds. It does so exactly
  when the write goes on past the largest file on a disk that can supply every block of the largest file
  (`FsRuns.WriteKeepsPromiseExactly`); otherwise it writes what fits. `FsRuns.WriteLeavesPointers` is an
  input for which it fails.
- `project_2/CondVar.h:19-28` promises that control returns to the signaller after the woken threads have
  released the lock. That is so in every run in which no thread is woken while another one is still to get
  the lock (`MonitorRuns.BroadcastOrder`, `MonitorRuns.SignallerRuns`); a woken thread may wait again. With a
  single `nextThreadToWakeUp`, a thread that is woken too early displaces the one that was next, and that one
  never runs again (`MonitorRuns.SignallerNeverReturns`).

## Model

| member | source | states |
|---|---|---|
| `FsRuns.RunCorrect` | project_4/fs.c:103-376 | From any reachable state, every result of every legal run of format, mount, unmount, create, delete, getsize, read and write is the result of a map from inumbers to byte strings on a disk of limited size, for every cache capacity and every content of the uninitialised `is_dirty` fields; the refinement relation, with all its invariants, still holds at the end |
| `FsRuns.FormattedRunCorrect` | project_4/fs.c:103-123 | The same for every run that starts by formatting any disk with room for the superblock and the inode blocks |
| `FsRuns.StepCorrect` | project_4/fs.c:203-376 | One call of any operation acts on the abstract files as specified and leaves a state that refines them |
| `FsRuns.CacheTransparent` | project_4/cache.c:41-134 | Two runs of the same calls with other cache capacities and other uninitialised memory return the same results |
| `FsRuns.EveryReachableState` | project_4/fs.c:103-376 | Format any disk and make any legal calls: whenever the file system is then mounted, every block is marked iff it is reserved or exactly one pointer leads to it, free blocks, reserved blocks and the blocks that the file sizes call for add up to the disk, and `inode_freemap` marks exactly the files |
| `FsRuns.FilesBounded` | project_4/inode_utilities.h:7-28 | Over every run from format: a disk of n blocks never holds more than 128 * (n / 10) files, 128 fewer than its inodes, and create fails exactly when it holds that many; otherwise it returns the least unused inumber |
| `FsRuns.ExactlyOneOwner` | project_4/fs.c:412-466 | A block is marked in `block_freemap` iff it is reserved or some pointer of some valid inode leads to it; two pointers never lead to the same block and none leads to a reserved one |
| `FsRuns.WriteStopsExactly` | project_4/fs.c:343-366 | `fs_write` returns the whole length iff the free entries of `block_freemap` cover the data blocks the write adds plus the indirect block if it needs one |
| `FsRuns.WriteKeepsPromiseExactly` | project_4/fs.c:323-376 | `fs_write` does what `fs.h` promises, writing what fits, iff it does not go on past the largest file on a disk with room for the largest file; otherwise it leaves its arrays |
| `FsRuns.WriteLeavesPointers` | project_4/fs.c:344-366 | A concrete failure: on a disk of 1300 blocks, a write of one byte more than the largest file into a new file indexes the pointer block out of bounds |
| `FsRuns.FreedInodeReturned` | project_4/cache.c:77-85 | A concrete failure: mount with capacity 1, create, delete, create; the next call on the new file gets an inode that has just been freed |
| `FsMounting.MountRefines` | project_4/fs.c:125-186 | After mount both freemaps are exactly what the pointers on the disk say, and the files are those of the unmounted disk |
| `FsMounting.MountExactly` | project_4/fs.c:125-152 | Mount accepts exactly a disk whose first block has the magic number and sizes that make sense; it changes no block, and begins with freemaps of those sizes and an empty cache |
| `FsMounting.RemountRestores` | project_4/fs.c:125-201 | Mounting after unmounting, with any capacity, restores both freemaps and every inode |
| `FsMounting.UnmountRefines` | project_4/fs.c:188-201 | Unmount keeps every file, on the disk alone |
| `FsMounting.MountScanCorrect` | project_4/fs.c:153-184 | After any number of inodes, the scan has marked exactly the reserved blocks and the blocks of the inodes it has seen |
| `FsMounting.FormatGood` | project_4/fs.c:103-123 | Format turns any large enough disk into an empty file system that satisfies all invariants |
| `FsMounting.FormatExactly` | project_4/fs.c:103-123 | Format block by block: the four numbers of the superblock, 1 + n / 10 zeroed inode blocks, every other block unchanged; refused when mounted |
| `FsRefinement.GetRefines` | project_4/fs.c:227-237 | The `get_inode` at the start of an operation changes no file, returns the inode of the file, valid iff the file exists, and moves the inumber to the end of the list of those in the cache |
| `FsRefinement.GetSizeRefines` | project_4/fs.c:268-279 | getsize returns the length of the abstract file, or -1 when it does not exist, and changes no file |
| `FsRefinement.ReadRefines` | project_4/fs.c:281-321 | read returns exactly the slice of the file, cut off at its end, and changes no file |
| `FsRefinement.DeleteRefines` | project_4/fs.c:227-266 | delete removes one abstract file, frees exactly its blocks and leaves the others alone; it refuses a file that does not exist |
| `FsRefinement.ReturnsFreedExactly` | project_4/cache.c:77-85 | In every reachable state `get_inode` of a usable inumber returns an inode it has just freed iff the removals since mount have used up the capacity |
| `FsUpdates.CreateRefines` | project_4/fs.c:203-225 | create makes the first unused inumber an empty file, or fails and changes nothing when that inumber is in the last inode block or there is none |
| `FsUpdates.CreateReturns` | project_4/fs.c:209-224 | In numbers, on a disk of n blocks: of the inumbers below 128 * (n / 10) the first one that is not marked, and that one is marked; -1 iff all of them are, although the 128 of the last inode block are not |
| `FsUpdates.CreateExact` | project_4/fs.c:203-225 | `fs_create` returns the first unused inumber; because it writes to the disk past the cache, the file is there iff that inumber is not in the cache |
| `FsUpdates.GetSizeHidesCreate` | project_4/fs.c:213-219 | A concrete failure: getsize on an unused inumber followed by the create that picks it; the new file does not exist |
| `FsUpdates.WriteRefines` | project_4/fs.c:323-376 | write splices the bytes that fit, on the disk and in the largest file, into one abstract file at the offset, returns their number, and leaves the other files alone |
| `FsSparse.WriteKeepsShapeExactly` | project_4/fs.c:343-366 | A write leaves a file that the scans of mount and delete see completely iff it leaves no hole: it starts inside the last block or at the next one that can be allocated |
| `FsHoles.HoleCutsRead` | project_4/fs.c:304-307 | After a write that leaves a hole `fs_read` finds no data at the hole, although the file goes on behind it |
| `FsHoles.RunsOffAtOnce` | project_4/fs.c:344-366 | A write that begins at the end of the largest file leaves its arrays iff the file has an indirect block or two blocks are free |
| `FsHoles.HoleWriteSkips` | project_4/fs.c:344-366 | Such a write puts its first block behind an unused pointer of the same array, unless it is the first indirect one |
| `FsHoles.DeleteLeaks` | project_4/fs.c:239-258 | delete leaves a block behind a hole marked, with no file that reaches it |
| `FsHoles.MountForgets` | project_4/fs.c:153-184 | mount leaves a block behind a hole unmarked, although the file reaches it |
| `FsHoles.ThenOverwritten` | project_4/fs.c:412-456 | When such a block is the first free one, the next file that is written to gets it, and its data replace those of the first file |
| `FsFile.ReadCorrect` | project_4/fs.c:297-320 | The read loop on a well-formed file returns the requested bytes, across direct and indirect blocks |
| `FsFile.WriteCorrect` | project_4/fs.c:339-375 | Every byte of the file after a write, the blocks taken, what stays unchanged, and that a changed inode is always followed by `set_dirty` |
| `FsFile.SetDirtyExactly` | project_4/fs.c:332-375 | On any inode: `fs_write` makes it valid, its size becomes the larger of the old one and the end of what was written, and `set_dirty` is called exactly when the inode has changed |
| `FsWriteProof.WriteLoopCorrect` | project_4/fs.c:344-366 | The write loop writes exactly the bytes that the available blocks allow, and everything else keeps its contents |
| `FsWriteProof.RunsOffExactly` | project_4/fs.c:344-366 | The write loop reaches the end of the largest file with data left iff the data go on past it and free blocks and the blocks of the file are enough for the largest file |
| `FsWriteProof.AllocCorrect` | project_4/fs.c:412-456 | A new data block is zeroed, belongs to this slot of this file only, and no other block changes hands |
| `FsWriteProof.StoreCorrect` | project_4/fs.c:359-361 | Storing into a data block changes the bytes of that slot of that file and nothing else |
| `FsSpace.AllocSpace` | project_4/fs.c:412-456 | A new data block is found iff enough blocks are free, counting the indirect block; a failed attempt, including the rollback of the indirect block, changes nothing |
| `FsSpace.FindFreeFails` | project_4/fs.c:461-466 | `find_free_block` fails iff no block is free |
| `FsScan.SetBlocksCorrect` | project_4/fs.c:162-181 | The pointer scans of mount and delete touch exactly the blocks that the file owns |
| `FsScan.ClearBlocksCount` | project_4/fs.c:239-258 | Delete returns as many blocks to the freemap as the size of the file called for |
| `CacheProof.GetCorrect` | project_4/cache.c:41-88 | `get_inode` changes no inode as later calls see it and no data block, keeps the list coherent, and returns the cached inode or else the one on the disk |
| `CacheProof.AppendLoaded` | project_4/cache.c:16-26 | A node whose `is_dirty` was never initialised is harmless: writing back an unmodified inode changes nothing |
| `CacheProof.EvictFirst` | project_4/cache.c:77-85 | Evicting the least recently used node changes no inode as later calls see it |
| `CacheProof.UpdateCorrect` | project_4/cache.c:109-122 | `set_dirty` records the in-place change of one inode, cached or not, and of no other |
| `CacheProof.RemoveCorrect` | project_4/cache.c:90-107 | `remove_if_present` leaves the empty inode for this inumber and every other inode as it was |
| `CacheProof.FlushCorrect` | project_4/cache.c:124-134 | After flushing, the disk alone holds every inode as the cache showed it |
| `CacheProof.SaveLoad` | project_4/inode_utilities.h:7-28 | Loading after saving returns the saved inode for that inumber and the old one for every other |
| `CacheProof.UsableExactly` | project_4/inode_utilities.h:7-28 | `inode_load` and `inode_save` work on slot i % 128 of block 1 + i / 128 iff 0 <= i < 128 * (numinodes / 128 - 1), and refuse every other inumber |
| `LruStack.GetIsTouch` | project_4/cache.c:41-88 | One `get_inode` moves its inumber to the end of the list, or appends it and drops the first one when list and removals fill the capacity |
| `LruStack.TraceIsLru` | project_4/cache.c:41-88 | After any trace of `get_inode` calls the list holds the most recently used inumbers, as many as fit, in recency order |
| `LruStack.LargerCacheLoadsNoMore` | project_4/cache.c:41-88 | On every trace a larger cache holds all that a smaller one does and never loads more inodes |
| `LruCache.InodeLoad` | project_4/inode_utilities.h:7-16 | The program returns the inode in slot i % 128 of block 1 + i / 128 iff i < 128 * (numinodes / 128 - 1), and refuses otherwise |
| `LruCache.InodeSave` | project_4/inode_utilities.h:18-28 | The program replaces that slot of that block and nothing else iff i < 128 * (numinodes / 128 - 1), and otherwise refuses and changes nothing |
| `LruCache.Cache.constructor` | project_4/cache.c:136-163 | A new cache is an empty list between its two sentinels |
| `LruCache.Cache.FindNode` | project_4/cache.c:181-189 | The search from the head finds the node of the first entry with this inumber, or nothing |
| `LruCache.Cache.Unlink` | project_4/cache.c:32-34 | Unlinking a node keeps `next` and `prev` of all others consistent |
| `LruCache.Cache.InsertAtEnd` | project_4/cache.c:9-14 | Linking a node in before the tail keeps the list consistent |
| `LruCache.Cache.GetInode` | project_4/cache.c:41-88 | On the linked list, `get_inode` does what the specification says to disk and list, and returns the listed inode object, alive unless the capacity is used up |
| `LruCache.Cache.RemoveIfPresent` | project_4/cache.c:90-107 | On the linked list, `remove_if_present` does what the specification says and frees the inode |
| `LruCache.Cache.SetDirty` | project_4/cache.c:109-122 | After an inode was changed through its alias, `set_dirty` brings the list back in step with it |
| `LruCache.Cache.FlushCache` | project_4/cache.c:124-134 | Every dirty inode is saved, front to back, and marked clean |
| `LruCache.Cache.Destroy` | project_4/cache.c:165-178 | Every dirty inode is saved and the list is empty |
| `SimpleFs.CopyData` | project_4/fs.c:382-386 | Copies the bytes and leaves the rest of the destination alone |
| `SimpleFs.FileSystem.FindFreeBlock` | project_4/fs.c:461-466 | The loop over `block_freemap` finds the first free block the specification names |
| `SimpleFs.FileSystem.GetBlockNumberForOffset` | project_4/fs.c:393-407 | Returns the block of the slot, through the indirect block if there is one |
| `SimpleFs.FileSystem.CreateNewDataBlock` | project_4/fs.c:412-456 | Updates disk, freemap and the aliased inode in place as specified, on success and on both failures |
| `SimpleFs.FileSystem.WriteBlocks` | project_4/fs.c:344-366 | The write loop, on the disk and the aliased inode, does what the specification says |
| `SimpleFs.FileSystem.ReadBlocks` | project_4/fs.c:297-320 | The read loop fills the front of the buffer with what the specification says and leaves the rest alone |
| `SimpleFs.FileSystem.Write` | project_4/fs.c:323-376 | The write program acts on the abstract files as specified and keeps every invariant |
| `SimpleFs.FileSystem.Read` | project_4/fs.c:281-321 | The read program returns the slice in the buffer, leaves the rest of the buffer and every file alone |
| `SimpleFs.FileSystem.GetSize` | project_4/fs.c:268-279 | The getsize program returns the length of the file |
| `SimpleFs.FileSystem.Create` | project_4/fs.c:203-225 | The create program acts on the abstract files as specified; it returns the first unmarked inumber below 128 * (n / 10), and -1 iff there is none or nothing is mounted |
| `SimpleFs.FileSystem.Delete` | project_4/fs.c:227-266 | The delete program acts on the abstract files as specified |
| `SimpleFs.FileSystem.Mount` | project_4/fs.c:125-186 | The mount program refuses an unformatted disk and otherwise yields the mounted abstract file system |
| `SimpleFs.FileSystem.Unmount` | project_4/fs.c:188-201 | The unmount program keeps every file and gives up the maps |
| `SimpleFs.FileSystem.Format` | project_4/fs.c:103-123 | The format program writes the disk that the specification says and yields an empty file system, or refuses when mounted |
| `SimpleFs.FileSystem.IsArgValid` | project_4/fs.c:478-500 | Accepts exactly a created file with a non-negative length and an offset inside the largest file |
| `Shell.CopyInCorrect` | project_4/shell.c:194-209 | copyin has the effect of one single write of the whole host file, however large it is and however the buffer cuts it |
| `Shell.CopyOutCorrect` | project_4/shell.c:229-234 | copyout returns the file from the offset to its end |
| `Shell.RoundTrip` | project_4/shell.c:182-240 | copyin into an empty file and then copyout yields exactly the prefix that fitted |
| `Shell.RoundTripWhole` | project_4/shell.c:182-240 | The whole file comes back iff it is no larger than the largest file and the disk has room for its blocks |
| `Shell.CopyIn` | project_4/shell.c:182-215 | The copyin loop on the file system object terminates and has that effect |
| `Shell.CopyOut` | project_4/shell.c:217-240 | The copyout loop on the file system object terminates, returns that file and changes no file |
| `MonitorProof.StepKeeps` | project_2/Lock.cpp:13-58 | Every step in which nobody is woken while another thread is still to get the lock keeps each thread in exactly one place (one that waits again while others are to get the lock is on the ready queue as well) and at most one owner; ownership moves only along the chain of woken threads and then along `waiting_queue`; the only assert that can fail is the one in `switchThreads`, and exactly when the last runnable thread waits or joins |
| `MonitorProof.LockKeeps` | project_2/Lock.cpp:13-27 | lock never finds the ready queue empty: the owner is runnable |
| `MonitorProof.UnlockKeeps` | project_2/Lock.cpp:29-54 | unlock hands the lock to the parked thread, else to the first waiter, else to nobody |
| `MonitorProof.UnlockFailsExactly` | project_2/Lock.cpp:29-34 | The assert on the lock count fails exactly when a thread unlocks that does not own the lock |
| `MonitorProof.WaitKeeps` | project_2/CondVar.cpp:11-21 | wait queues the caller behind all others that wait for this condition variable, and gives the lock to the parked thread, which then runs, else to the first waiter; it fails only when nobody else can run |
| `MonitorProof.SignalKeeps` | project_2/CondVar.cpp:23-49 | signal and broadcast hand the lock to the first waiter, which runs at once, take it or all waiters off the queue, and park the caller at the end of the chain |
| `MonitorProof.StepQueues` | project_2/CondVar.cpp:11-49 | Exact queues of every condition variable after any call in any state: a waiting thread joins the end, signal takes the front, broadcast all, nothing else changes them; and which thread runs next |
| `MonitorProof.HandOver` | project_2/CondVar.cpp:16-19 | The woken thread owns the lock and the rest of the chain, at once or, if it was still inside the `_unlock` of its wait, when it is next taken off the ready queue |
| `MonitorRuns.SafeFromStart` | project_2/Lock.cpp:13-58 | In every run from the start two threads are never both in their critical sections, and every created thread is in some queue or runs |
| `MonitorRuns.AtMostOneOwner` | project_2/Lock.cpp:13-54 | Two threads that can run and hold the lock, or have just been given it, are the same thread |
| `MonitorRuns.ChainServed` | project_2/CondVar.cpp:11-49 | Over every run, while the chain lasts the owners are exactly its threads in order, whoever is created, preempted, queued or waits again in between |
| `MonitorRuns.BroadcastOrder` | project_2/CondVar.cpp:23-49 | After a signal or broadcast by S that wakes W1..Wn, the successive owners are W1, ..., Wn, S |
| `MonitorRuns.SignallerRuns` | project_2/Lock.cpp:36-43 | When the last woken thread unlocks or waits, the signaller runs in that very step |
| `MonitorRuns.FirstComeFirstServed` | project_2/Lock.cpp:13-57 | Over every run, the threads queued for the lock are served in the order in which they came |
| `MonitorRuns.ServedOwns` | project_2/Lock.cpp:45-49 | Whoever is taken off the queue owns the lock in that very step |
| `MonitorRuns.WokenInOrder` | project_2/CondVar.cpp:11-49 | First come, first served for every condition variable over every run from any state: its waiters, followed by the callers of wait in order, are the threads taken off by signal and broadcast in order, followed by its waiters at the end |
| `MonitorRuns.WokenOwns` | project_2/CondVar.cpp:23-49 | The first thread that signal or broadcast takes off owns the lock in that step, and runs unless it is still inside the `_unlock` of its wait; the other woken threads and then the caller are next, in order |
| `MonitorRuns.EveryoneKeptExactly` | project_2/CondVar.cpp:11-49 | A call keeps every thread in its place and the successors in order iff it does not wake a thread while another one is still to get the lock: one `nextThreadToWakeUp` is enough exactly then |
| `MonitorRuns.SignallerNeverReturns` | project_2/Lock.cpp:56-58 | In the failing case the thread that was next never runs again, whatever all others do |
| `MonitorRuns.NestedSignalLoses` | project_2/CondVar.cpp:23-33 | A concrete run that loses a signaller |
| `HoareThreads.Threads.LockCall` | project_2/Lock.cpp:13-27 | The program for lock never fails; the caller owns the free lock or is queued for it, and every thread keeps its place |
| `HoareThreads.Threads.UnlockCall` | project_2/Lock.cpp:29-54 | The program for unlock never fails; the new owner is the first of the chain, else the first waiter, else nobody, and every thread keeps its place |
| `HoareThreads.Threads.WaitCall` | project_2/CondVar.cpp:11-21 | The program for wait succeeds iff somebody can run or be given the lock; then the new owner is as for unlock, and the caller is last in the queue of this condition variable and no other queue of one changes |
| `HoareThreads.Threads.SignalCall` | project_2/CondVar.cpp:23-33 | The program for signal never fails; the first waiter leaves the queue, owns the lock and the caller is next, or nothing happens |
| `HoareThreads.Threads.BroadcastCall` | project_2/CondVar.cpp:35-49 | The program for broadcast, with its loop: the queue is empty, the first waiter owns the lock and all others, then the caller, get it in order |
| `HoareThreads.Threads.YieldCall` | project_2/uthread.cpp:494-510 | A preemption changes neither the owner nor who gets the lock next |
| `BoundedBufferRuns.Safe` | project_2/main.cpp:33-129 | For any number of producers and consumers and every schedule: no assert fails; what the consumers read from the buffer are the ids of the producers that have written to it, in the order of the writes; the rest of them are in the buffer; head, tail and the counters agree with that whenever nobody is inside an update; no two producers, and no two consumers, are in their critical sections at once, and the flags say whether one is; never do both condition variables have waiters, and no thread is lost |
| `BoundedBufferRuns.Histories` | project_2/main.cpp:69-70 | The histories in the shared variables are what the run did: the ids of the producers that executed the store, in order, and what each consumer found at the tail |
| `BoundedBufferRuns.SafeExactly` | project_2/main.cpp:131-194 | The program is safe under every schedule iff there are both producers and consumers, or neither |
| `BoundedBufferRuns.GetsStuck` | project_2/uthread.cpp:342-347 | Without producers, or without consumers, running on ends in the failed assert of `switchThreads` |
| `BoundedBufferProof.AdvanceKeeps` | project_2/main.cpp:54-129 | Every statement of every thread, and every preemption between two statements, keeps the invariant, or the program is stuck |
| `BoundedBufferProof.SomebodyRuns` | project_2/uthread.cpp:342-347 | When a thread waits, another one can run |
| `BoundedBufferProof.ProducerStatementOk` | project_2/main.cpp:54-88 | Each producer statement on the shared variables keeps them in step with the history and does not surprise a waiting thread; its asserts hold; the store puts the id of the producer into the next free cell and changes nothing else |
| `BoundedBufferProof.ConsumerStatementOk` | project_2/main.cpp:90-129 | The same for the consumer, which reads the oldest item that has not been taken |
| `BoundedBufferProof.SignalKeeps` | project_2/main.cpp:75-117 | The thread that a producer or consumer wakes finds what it waited for, and nothing is overwritten |
| `Uthread.Scheduler.OnePlace` | project_2/uthread.cpp:42-47 | Every existing thread is in exactly one of running, the three ready queues, blocked, join queue, finished queue or a lock queue, once; a thread in a ready queue has the priority of that queue |
| `Uthread.Scheduler.GetNextId` | project_2/uthread.cpp:118-130 | Returns the least unused id |
| `Uthread.Scheduler.Create` | project_2/uthread.cpp:432-453 | Refuses the 101st thread; otherwise the least unused id, below 100, joins the end of its ready queue |
| `Uthread.Scheduler.RemoveFromReady` | project_2/uthread.cpp:222-237 | Removes exactly this thread from the ready queue of its priority, or reports that it is not there |
| `Uthread.Scheduler.RemoveFromFinished` | project_2/uthread.cpp:260-286 | Removes the entry of this thread, deletes the thread and returns its result, or reports that it is not there |
| `Uthread.Scheduler.MoveFromJoinToReady` | project_2/uthread.cpp:291-309 | Exactly the entries that wait for this thread leave the join queue and go to the ends of the ready queues of their priorities, in their order |
| `Uthread.Scheduler.SwitchThreads` | project_2/uthread.cpp:342-347 | The first thread of the first non-empty ready queue is taken off it and runs, and the ready queues are otherwise as they were; if it was in a join, it receives what the thread it joined passed to `uthread_exit`, and that thread is deleted |
| `Uthread.Scheduler.Join` | project_2/uthread.cpp:457-492 | Joining a finished thread delivers its result and deletes it; otherwise the caller is last in the join queue until it exits, and the first thread of the first non-empty ready queue goes on, with its own result if it was in a join |
| `Uthread.Scheduler.Yield` | project_2/uthread.cpp:494-510 | The caller joins the end of its ready queue, and then the first thread of the first non-empty queue is taken off and runs: the exact ready queues afterwards; no priority changes |
| `Uthread.Scheduler.Exit` | project_2/uthread.cpp:600-633 | The joiners are appended to their ready queues, the result is kept, and the first thread of the first non-empty queue runs; fails exactly when no thread is ready or joining |
| `Uthread.Scheduler.Suspend` | project_2/uthread.cpp:636-668 | A ready thread other than main leaves its queue, or the running one gives way to the next, and becomes blocked; any other request is refused and changes nothing |
| `Uthread.Scheduler.Resume` | project_2/uthread.cpp:671-694 | A blocked thread joins the end of its ready queue; any other request is refused and changes nothing |
| `Uthread.Scheduler.ChangePriority` | project_2/uthread.cpp:728-800 | The priority goes from queue q to max(0, q - 1) or min(2, q + 1); a ready thread leaves its queue and joins the end of that one, any other thread keeps its place |
| `UthreadRuns.RoundRobin` | project_2/uthread.cpp:494-510 | Over every run of time slices, the threads of the highest priority run in the order of their queue, over and over: slice j is of thread j modulo their number; threads of lower priority never run |
| `UthreadRuns.OnceEach` | project_2/uthread.cpp:494-510 | In as many consecutive time slices as there are threads of the highest priority, each of them runs exactly once |
| `Uthread.Scheduler.EqualsOf` | project_2/uthread.cpp:494-510 | In every state of the scheduler the running thread and the ready threads of its priority are different threads of that priority, which is what the two theorems on time slices ask for |
| `PagingRuns.PagingIsFlat` | project_3/main.cpp:108-175 | For any interleaving of loads, stores and clock ticks, under any of the three policies and whatever `rand` returns, no assert fails and every load returns the word last stored there |
| `PagingRuns.FromStart` | project_3/main.cpp:177-260 | The same from the start of main with any uninitialised memory; and `disk_reads == page_faults`, `disk_writes <= max(0, page_faults - nframes)`, and with a frame for every page at most one fault a page and no disk write |
| `PagingRuns.PermissionsFromStart` | project_3/main.cpp:437-527 | In every run from the start, under any policy, filled frames are the first `disk_reads` ones and in bijection with the resident pages through core map and page table; a page that is not resident has no permission, a resident one has none until it is used after a tick, and then write permission iff it is dirty |
| `PagingRuns.AllowedSoon` | project_3/main.cpp:108-175 | Without a tick a load is allowed after one call of the handler and a store after at most two; and exactly when one is enough |
| `PagingRuns.HandleOk` | project_3/main.cpp:108-175 | On every fault the handler decides residency correctly, its assert holds, and memory as the program sees it is unchanged |
| `PagingProof.PageInOk` | project_3/main.cpp:437-478 | A page-in, with the eviction that skips the write of a clean frame, changes nothing the program can see and keeps the exact permission invariant |
| `PagingProof.SetPermsOk` | project_3/main.cpp:515-527 | A fault on a resident page restores or raises its permissions exactly |
| `PagingProof.TickOk` | project_3/main.cpp:283-299 | The clock takes permissions away but changes nothing the program can see |
| `PagingProof.StoreOk` | project_3/page_table.cpp:105-122 | A permitted store changes one word of one page |
| `PagingProof.CustomVictim` | project_3/main.cpp:306-353 | The victim of the custom policy is the unique oldest one of the not recently used frames that are clean or at least four timestamps a frame old, each filter being dropped exactly when it leaves nothing |
| `PagingProof.VictimIdle` | project_3/main.cpp:306-317 | If some frame has been idle for a tick, the victim has not been used since the last tick |
| `PagingHistory.HistoryFromStart` | project_3/main.cpp:108-175 | In every run from the start, under any policy, the core map is determined by what has happened: timestamp and page of a frame by its last page-in, its dirty flag by a first write since then, its used flag and idle counter by the ticks since it was last brought in or given back its permission; and `disk_writes` counts the page-ins that replaced a written page |
| `PagingHistory.VictimByHistory` | project_3/main.cpp:306-353 | The custom victim in terms of that history alone: of the frames untouched for two ticks (or all), those not written to since their page-in or brought in at least 4 * nframes page-ins ago (or all), the one brought in longest ago; the eviction writes to the disk iff its page was written to |
| `PagingHistory.DirtyVictimExactly` | project_3/coremap.cpp:54-58 | While some choice needs no write, the eviction writes to the disk iff some written page has been in memory for at least 4 * nframes page-ins and for longer than every choice that needs no write |
| `PagingHistory.RandAnyFrame` | project_3/main.cpp:489-496 | With rand, frame f is evicted whenever the random number is f modulo the number of frames, so every frame can be |
| `PagingRuns.FifoFromStart` | project_3/main.cpp:131-147 | With fifo, from the start of main and for any accesses: page-in k went to frame k modulo the number of frames, the resident pages are exactly those of the last page-ins, as many as there are frames, and `frame_queue` is strictly sorted by timestamp |
| `PagingRuns.RoundRobinNext` | project_3/main.cpp:131-147 | With fifo, page-in k goes to frame k modulo the number of frames |
| `PagingRuns.FifoResident` | project_3/main.cpp:131-147 | With fifo the resident pages are exactly those of the last page-ins, as many as there are frames |
| `PagingRuns.QueueSorted` | project_3/main.cpp:500-505 | `frame_queue` is strictly sorted by timestamp |
| `PagingRuns.FrontIsOldest` | project_3/main.cpp:324-335 | When memory is full, the front of `frame_queue` is what `get_fifo` over all frames would return |
| `PagingRuns.FaultFits` | project_3/main.cpp:463-466 | A page that is not resident still has an empty frame as long as there are no more pages than frames |
| `PagingProgram.VirtualMemory.constructor` | project_3/main.cpp:193-207 | The initial page table and core map satisfy every invariant and show the disk |
| `PagingProgram.VirtualMemory.TimerHandler` | project_3/main.cpp:283-299 | The loop over the core map does what the specification says |
| `PagingProgram.VirtualMemory.NotRecentlyUsed` | project_3/main.cpp:306-317 | The loops build the list the specification says |
| `PagingProgram.VirtualMemory.FilterDirty` | project_3/main.cpp:342-353 | The loop keeps, in order, the candidates that are clean or at least four timestamps a frame old, or all of them if there are none |
| `PagingProgram.VirtualMemory.GetFifo` | project_3/main.cpp:324-335 | The loop finds the first frame with the least timestamp |
| `PagingProgram.VirtualMemory.EvictFrameFromMemory` | project_3/main.cpp:463-478 | Takes an empty frame or evicts the victim, writing it back iff it is dirty; its assert holds |
| `PagingProgram.VirtualMemory.SetPerms` | project_3/main.cpp:515-527 | Updates core map entry, idle counter and page table entry as specified |
| `PagingProgram.VirtualMemory.LoadPage` | project_3/main.cpp:437-441 | Reads the page into the frame and assigns the core map entry to it |
| `PagingProgram.VirtualMemory.PageFaultHandler` | project_3/main.cpp:108-175 | The handlers do what the specification says; memory as the program sees it is unchanged |

## Left out

- Byte layout: a disk block is a datatype with a typed view for each use, not a C union; reading a block through another view than it was written with is shown not to happen.
- Integer widths: sizes, counters and timestamps are unbounded; the wrap-around of the 64-bit timestamp counter of the core map, and `ULLONG_MAX` as a timestamp, are not modelled.
- Host files and the disk driver: the disk is an array; `fopen`, `fread` and `fwrite` of the copy commands become a byte string that is read or produced.
- `malloc` and `calloc` failures, and memory other than inodes: only whether an inode has been freed is tracked.
- `fs_debug`, the shell's command parsing, and all printing.
- LruCache.Cache.GetInode: the uninitialised `is_dirty` of a new node is a parameter of the call.
- Negative inumbers: the cache search would match a sentinel, whose inode is uninitialised memory.
- SimpleFs.FileSystem.Write: takes the data as a sequence, so a caller that changes its buffer during the call is not modelled.
- BoundedBuffer: each source statement is one step, and the infinite loops of the threads are a transition function and not a method, since they do not end; the value of an item is the id of its producer, as in the source.
- Monitor: one lock, which a thread takes at most once, with any number of condition variables; several locks, each with a chain of its own, are not modelled.
- Monitor: the ready queue that `switchThreads` takes from is one list with an arbitrary choice, which covers the three priorities and every boosting; `Uthread` models the three queues themselves.
- The boosting heuristic of `uthread_yield`: arbitrary priority changes in `Uthread.Scheduler.ChangePriority` stand for it.
- Uthread.Scheduler.GetNextId: looks ids up in turn instead of walking the ordered map, which visits the same ids.
- Uthread.Scheduler.Exit: the exit of the main thread, which ends the process, is not modelled.
- The `interrupts_enabled` flag and signal masks: a step runs from where a call disables interrupts to where the resumed call enables them.
- Contexts, timers, `mmap`, `mprotect` and `remap_file_pages`: replaced by the saved place of a thread, ticks between any two steps, and accesses that are allowed or fault.
- The illegal-page and illegal-frame aborts of `page_table_set_entry`: shown not to be reached.
- `SpinLock`, `async_io`, the benchmark and test programs, `project_1` (an earlier version of the thread library), `project_3/program.cpp` (arbitrary access traces cover it) and the scripts.
