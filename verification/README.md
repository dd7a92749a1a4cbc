# OS/161 kernel and libc: verified models

A Dafny model of the parts of OS/161 whose correctness is hardest to see from the
code: the kernel heap, the thread system with its scheduler, semaphores and locks,
the cat and mouse program built on semaphores, the additive-feedback random
generators, the printf engine with its bounded sink and atoi, overlap-safe copying,
and the bitmap with the free map that mksfs writes in the same layout.

`dafny verify dfyconfig.toml` checks everything.

## How it is laid out

| part | files |
|---|---|
| kernel heap | `HeapModel` (state, invariant, what it guarantees), `HeapSteps` (each change on values), `KernelHeap` (the allocator class) |
| threads | `RingQueue`, `PtrArray` (the two containers), `ThreadModel`, `ThreadLaws` (the lists on values), `SynchModel`, `SynchRuns` (transition system with semaphores and locks, whole runs), `ThreadMemory` (where memory can run out), `ThreadSystem` (the class on the real containers) |
| cats and mice | `CatMouse` (protocol and dish theorems), `CatMouseTokens` (four animals or fewer), `CatMousePanic` (five or more) |
| random | `RandomModel` (generators on values), `Random` (the class on state arrays) |
| printf, snprintf, atoi | `PrintfModel` (state machine and grammar), `PrintfLaws` (arguments and texts), `Printf` (classes), `Atoi` (parser and round trip) |
| memory | `MemCopy` |
| bitmaps | `Bitmap`, `Mksfs` |
| shared | `Basics` |

State that the source updates in place is a class or an array. Each method is proved
against a function of the old state, and the theorems are proved about those
functions. Every stretch of code that runs with interrupts off is one atomic event of
the transition system, cut where the processor is given up. The cat and mouse
program is interleaved at every semaphore operation and every access to a shared
variable, an increment being one access.

## Where the code does not do what its comments say

Each of these is proved, wherever it depends on the input with the exact condition.

- kmalloc: a size within 4095 of 2^32 wraps when it is rounded up, and zero pages are
  asked for (`KernelHeap.RoundingCovers`).
- thread_wakeup_one can wake several threads (`ThreadLaws.WakesExactlyOne`,
  `ThreadLaws.WakeOneCanWakeTwo`).
- mi_switch and thread_wakeup say that putting a thread on a list cannot fail after the
  reservations in thread_fork. For sleepers that is so (`SynchRuns.SleepAfterFork`). For
  zombies it is not: an exit needs memory exactly when the zombies fill their table
  (`ThreadLaws.ExitMemory`, over runs `ThreadMemory.WhichExitsNeedMemory`), and runs from
  booting get there without any disposal (`ThreadMemory.ChainCanPanic`) and by one that
  gives up the room (`ThreadMemory.DrainCanPanic`). For the run queue it fails exactly when
  the ring has one slot for each live thread and all would be queued, which 31 forks bring
  about (`ThreadLaws.YieldMemory`, `ThreadLaws.WakeupMemory`, `ThreadLaws.WakeupOneMemory`,
  `ThreadMemory.YieldCanPanic`, `ThreadMemory.IdleWakeupCanPanic`).
- setstate on the state array in use is said to be harmless; it can lose the place
  (`Random.SameArrayLosesPlace`). It keeps the rear pointer exactly after whole turns
  (`Random.Reenter`), and the generator exactly if the table looks the same from both
  places (`Random.Generator.SetState`).
- The digit buffer of printf is said to have a character of slop; octal uses it, exactly
  from 2^30 on (`PrintfModel.OctalFillsBuffer`).
- `%-0wd` pads with zeros on the right, so reading it back gives another number, except
  for 0 and for texts as long as the field (`Atoi.RoundTrip`).
- bitmap_create and mksfs round up in 32 bits; the last few sizes wrap
  (`Bitmap.Bitmap.constructor`, `Mksfs.MapCovers`). mksfs fails an assertion for devices of
  one or two blocks (`Mksfs.WriteBitmap`).
- catsem.c: the first animal of a group asks whether another is waiting, but counts
  itself, so the answer is always yes (`CatMouse.FirstAlwaysWaits`). The panic on both
  dishes busy can be reached exactly with five animals or more; the program runs eight
  (`CatMousePanic.PanicIffFive`).

## Model

| member | source | states |
|---|---|---|
| `HeapModel.LiveBlocksDisjoint` | src/kern/lib/kheap.c:350-577 | In every state that keeps the heap's invariant, any two live blocks (small or whole pages) occupy disjoint bytes, and each is at least as large as what was asked for |
| `HeapModel.LiveBlockPlacement` | src/kern/lib/kheap.c:372-460 | A live small block lies inside the one page its record names, a whole number of blocks from the page start, and the record's packed word gives that page and block size |
| `HeapModel.LiveRunPlacement` | src/kern/lib/kheap.c:548-560 | A live run starts with its first page, extends over whole pages that hold what was asked for, and overlaps no managed page |
| `HeapModel.LiveIffNotFree` | src/kern/lib/kheap.c:380-405 | A block of a managed page is live exactly when its index is not on the page's free list, and then the account of live blocks names this page and index |
| `HeapModel.PageConservation` | src/kern/lib/kheap.c:526-534 | For every managed page the number of live blocks plus nfree is the number of blocks in a page |
| `HeapModel.DecodeRecord` | src/kern/lib/kheap.c:80-82 | The packed address/type word of every record in use decodes to the page address and block type that were stored |
| `HeapModel.PackMasks` | src/kern/lib/kheap.c:80-82 | On 32-bit words, the masks that pack and unpack the two parts are the quotient and the remainder by the page size, and never mix the parts |
| `HeapModel.OffsetAligned` | src/kern/lib/kheap.c:500-505 | The offset of every block passes the alignment test that kfree panics on |
| `HeapModel.OffsetInPage` | src/kern/lib/kheap.c:432-450 | Every block of a page ends inside the page, for each of the eight sizes |
| `HeapModel.LinkedPush` | src/kern/lib/kheap.c:452-456 | Putting a record at the head of a linked list adds it to the list and disturbs nothing behind it |
| `HeapModel.LinkedRemove` | src/kern/lib/kheap.c:309-330 | Redirecting the one pointer that leads to a record unlinks exactly that record, at the head or further on |
| `HeapSteps.TakeKeeps` | src/kern/lib/kheap.c:380-405 | Taking the first block off a free list keeps the whole invariant, and that block was not live before |
| `HeapSteps.PutKeeps` | src/kern/lib/kheap.c:518-526 | Threading a freed block back keeps the whole invariant, whatever was in the block |
| `HeapSteps.InsertKeeps` | src/kern/lib/kheap.c:431-456 | Bringing in a carved page keeps the whole invariant: both lists, the packed word, the free list, the live blocks |
| `HeapSteps.CarvedIsThreaded` | src/kern/lib/kheap.c:440-450 | The carving loop's links form one acyclic free list of all blocks of the page, last block first, ended by NULL |
| `HeapSteps.ReleaseKeeps` | src/kern/lib/kheap.c:529-534 | Unlinking a wholly free page from both lists and clearing its bit keeps the invariant, and no live block was on it |
| `HeapSteps.RunKeeps` | src/kern/lib/kheap.c:548-560 | A run of whole pages that the page allocator grants becomes live without touching any other block |
| `HeapSteps.FreeRunKeeps` | src/kern/lib/kheap.c:573-576 | Giving a run back keeps the invariant |
| `HeapSteps.ClientWriteKeeps` | src/kern/lib/kheap.c:66-68 | Whatever a client stores inside its own live block, the free lists threaded through other blocks stay intact |
| `KernelHeap.RoundingCovers` | src/kern/lib/kheap.c:552-554 | The pages asked for cover the request exactly when rounding up does not wrap at 32 bits, and one page less would not; when it wraps, zero pages are asked for |
| `KernelHeap.LeastType` | src/kern/lib/kheap.c:334-348 | The chosen block type is the only one that is large enough and whose predecessor is too small |
| `KernelHeap.BlockTypeFor` | src/kern/lib/kheap.c:334-348 | The search loop finds the least block type that is large enough |
| `KernelHeap.Allocator.constructor` | src/kern/lib/kheap.c:104-153 | The zeroed tables keep the invariant, with nothing live |
| `KernelHeap.Allocator.AllocPageRef` | src/kern/lib/kheap.c:110-133 | The lowest record not in use is marked, or NULL is returned exactly with all records in use; the inner search never falls through |
| `KernelHeap.Allocator.FreePageRef` | src/kern/lib/kheap.c:135-148 | Exactly one in-use bit is cleared |
| `KernelHeap.Allocator.FindPointer` | src/kern/lib/kheap.c:315-329 | The walk finds the pointer that leads to the record: the head or its predecessor's link |
| `KernelHeap.Allocator.Unlink` | src/kern/lib/kheap.c:309-330 | The record leaves its list and every other link stays |
| `KernelHeap.Allocator.FindRoom` | src/kern/lib/kheap.c:372-378 | Finds a record of the type with a free block, or reports that no page of the type has one |
| `KernelHeap.Allocator.TakeFrom` | src/kern/lib/kheap.c:380-405 | The address is the first free block of the record; record, free list and live set change as one step, and none of the assertions on the way fails |
| `KernelHeap.Allocator.Carve` | src/kern/lib/kheap.c:440-450 | All links of a fresh page are written, and nothing outside the page |
| `KernelHeap.Allocator.LinkPage` | src/kern/lib/kheap.c:431-456 | The record gets its packed word, offset and count and heads both lists |
| `KernelHeap.Allocator.AddPage` | src/kern/lib/kheap.c:414-456 | A fresh page is brought in whole, or nothing at all changes: without a record, and without a page after a record was found |
| `KernelHeap.Allocator.RoomFor` | src/kern/lib/kheap.c:372-456 | After it a page with a free block of the right type exists, unless there was none and none could be made |
| `KernelHeap.Allocator.SubpageMalloc` | src/kern/lib/kheap.c:352-460 | A block large enough that was not live becomes live; NULL exactly when all pages of the type are full and no record or no page is left; no other live block's words change |
| `KernelHeap.Allocator.FindPage` | src/kern/lib/kheap.c:481-498 | Walking all pages finds one whose address range contains the pointer, or there is none |
| `KernelHeap.Allocator.FillDeadbeef` | src/kern/lib/kheap.c:8-16 | Every word of the block becomes 0xdeadbeef and no other word changes |
| `KernelHeap.Allocator.PutBack` | src/kern/lib/kheap.c:500-526 | A live block goes to the head of its page's free list, its other words are 0xdeadbeef; the placement panic is not reached |
| `KernelHeap.Allocator.RemoveLists` | src/kern/lib/kheap.c:307-330 | The record leaves its size list and the list of all pages |
| `KernelHeap.Allocator.ReleasePage` | src/kern/lib/kheap.c:529-534 | A wholly free page leaves all tables and its address is handed back |
| `KernelHeap.Allocator.SubpageFree` | src/kern/lib/kheap.c:464-540 | 0 exactly for live small blocks, -1 with nothing changed for runs; the page is released in the step that frees its last live block and in no other |
| `KernelHeap.Allocator.KMalloc` | src/kern/lib/kheap.c:545-563 | Keeps the invariant; NULL exactly in the listed cases and then with no change; otherwise one new live block of at least the size asked for, a run being less than one page larger; a page is taken over only when the pages of the type are full; contents of all live blocks kept |
| `KernelHeap.Allocator.KFree` | src/kern/lib/kheap.c:565-577 | Keeps the invariant; exactly the given block stops being live; every live pointer reaches the allocator that issued it; a page goes back exactly when no live block is left on it; other blocks' contents kept |
| `KernelHeap.Allocator.ClientWrite` | src/kern/lib/kheap.c:66-68 | A store inside a live block keeps the invariant |
| `KernelHeap.OneBlock` | src/kern/lib/kheap.c:545-577 | On a fresh heap the first block lies on the granted page, and freeing it gives exactly that page back |
| `KernelHeap.IdleIffNoneLive` | src/kern/lib/kheap.c:528-534 | nfree reaches the number of blocks in a page exactly when no live block is on the page |
| `KernelHeap.OnlyOwnPage` | src/kern/lib/kheap.c:481-492 | The only managed page whose address range contains a live block is its own, and none contains a run |
| `KernelHeap.PutKeepsContents` | src/kern/lib/kheap.c:511-526 | Filling and threading a freed block writes inside no other live block |
| `RingQueue.DoubledIsLeast` | src/kern/lib/queue.c:25-28 | Doubling stops at the first size that meets the target |
| `RingQueue.DoubledTwice` | src/kern/lib/queue.c:25-28 | Growing in two steps ends where growing once for the larger target does |
| `RingQueue.ItemsPush` | src/kern/lib/queue.c:90-108 | Storing at the write index and moving it on appends one item, from any wrapped position |
| `RingQueue.ItemsPop` | src/kern/lib/queue.c:110-121 | The item at the read index is the oldest |
| `RingQueue.Ring.constructor` | src/kern/lib/queue.c:53-68 | An empty ring of the given size |
| `RingQueue.Ring.Grow` | src/kern/lib/queue.c:17-51 | Growth keeps the contents in order from any wrapped position, with or without memory; its inner q_addtail calls find room, so the mutual recursion ends |
| `RingQueue.Ring.AddTail` | src/kern/lib/queue.c:90-108 | Appends exactly one item, or returns ENOMEM exactly when full without memory and then changes nothing; full means size - 1 items |
| `RingQueue.Ring.RemHead` | src/kern/lib/queue.c:110-121 | Removes and returns the oldest item |
| `RingQueue.Ring.Preallocate` | src/kern/lib/queue.c:70-81 | At least the asked number of slots with unchanged contents, or ENOMEM with no change |
| `RingQueue.Ring.EmptyIffNoContents` | src/kern/lib/queue.c:84-88 | The index test for empty is right |
| `PtrArray.GrownTwice` | src/kern/lib/array.c:42-65 | Growing in two steps ends where growing once for the larger demand does |
| `PtrArray.Array.Preallocate` | src/kern/lib/array.c:42-65 | Capacity for the asked number with unchanged contents, or ENOMEM with no change |
| `PtrArray.Array.SetSize` | src/kern/lib/array.c:67-89 | Items below both sizes stay; memory is needed only beyond the capacity; shrinking to 0 drops a capacity above 16 |
| `PtrArray.Array.Add` | src/kern/lib/array.c:99-114 | Appends exactly one item, or ENOMEM exactly at capacity without memory and then no change |
| `PtrArray.Array.Remove` | src/kern/lib/array.c:116-127 | Removes exactly the item at the index and closes the gap |
| `ThreadModel.BootInv` | src/kern/thread/thread.c:171-211 | The booted state keeps the invariant of the thread lists |
| `ThreadModel.ForkNeedsNoPush` | src/kern/thread/thread.c:277-296 | After the reservations succeed, queueing the new thread needs no memory; fork succeeds exactly when the reservations do |
| `ThreadModel.ForkKeeps` | src/kern/thread/thread.c:277-304 | Keeps curthread, run queue, sleepers and zombies disjoint and duplicate-free with numthreads the non-zombie total; a failed fork changes room only |
| `ThreadModel.YieldKeeps` | src/kern/thread/thread.c:365-377 | Yielding keeps the invariant |
| `ThreadModel.SleepKeeps` | src/kern/thread/thread.c:379-384 | Going to sleep keeps the invariant |
| `ThreadModel.ExitKeeps` | src/kern/thread/thread.c:463-465 | Exiting keeps the invariant |
| `ThreadModel.PickKeeps` | src/kern/thread/thread.c:396-399 | Picking the head of the run queue keeps the invariant |
| `ThreadModel.CurrentIsElsewhere` | src/kern/thread/thread.c:109-113 | The running thread is on none of the lists, so exorcise never destroys it |
| `ThreadModel.ExorciseKeeps` | src/kern/thread/thread.c:103-117 | Disposing of the zombies keeps the invariant |
| `ThreadModel.WakeKeeps` | src/kern/thread/thread.c:512-572 | Both wakeup scans keep the invariant from any position |
| `ThreadLaws.WakeupSplits` | src/kern/thread/thread.c:512-539 | thread_wakeup moves exactly the sleepers on the address to the run queue, in sleeping order, and leaves the others in order |
| `ThreadLaws.WakeupMemory` | src/kern/thread/thread.c:531-536 | A wakeup needs memory exactly when it would queue every live thread into a ring with one slot each; never while a thread runs |
| `ThreadLaws.SleepMemory` | src/kern/thread/thread.c:379-390 | Going to sleep needs memory exactly before the first reservation |
| `ThreadLaws.ExitMemory` | src/kern/thread/thread.c:386-390 | Exiting needs memory exactly when the zombies fill their table, so the promise that it cannot fail after the reservations is false |
| `ThreadLaws.ExitAfterDisposal` | src/kern/thread/thread.c:103-117 | An exit right after a disposal needs memory exactly when the table had no room, or room for more than 16 |
| `ThreadLaws.WakeupOneMemory` | src/kern/thread/thread.c:555-570 | thread_wakeup_one needs memory exactly when the only sleeper sleeps on the address and all other threads fill a ring with one slot each; never while a thread runs |
| `ThreadLaws.YieldMemory` | src/kern/thread/thread.c:376-390 | Yielding needs memory exactly when all live threads are runnable and the ring has one slot for each |
| `ThreadLaws.WakeupOneSplits` | src/kern/thread/thread.c:546-572 | Which sleepers thread_wakeup_one moves and which it leaves, in order |
| `ThreadLaws.WakesExactlyOne` | src/kern/thread/thread.c:546-572 | It wakes the first sleeper on the address, and no other exactly when nobody from the second position after that one on sleeps on the address |
| `ThreadLaws.WakeOneCanWakeTwo` | src/kern/thread/thread.c:546-572 | With three sleepers on one address it wakes two |
| `SynchModel.StepKeeps` | src/kern/thread/synch.c:61-183 | Every event of every thread keeps the invariant: list disjointness, counts in range, isHeld agrees with holder, nobody asleep on an available semaphore or a free lock |
| `SynchModel.NoLostWakeup` | src/kern/thread/synch.c:75-92 | A thread asleep inside P waits for a count of zero; one asleep inside lock_acquire waits for a held lock |
| `SynchModel.OnlyMisusePanics` | src/kern/thread/synch.c:84-183 | With memory available, an event panics exactly on count overflow, a second lock_acquire by the holder, or a lock_release by somebody else |
| `SynchModel.BootSys` | src/kern/thread/synch.c:19-36 | The state after booting keeps the invariant |
| `SynchRuns.RunKeeps` | src/kern/thread/synch.c:61-183 | The invariant holds in every state of every run |
| `SynchRuns.SemaphoreHistory` | src/kern/thread/synch.c:61-94 | Between any two states of any run a semaphore's count changes by the Vs minus the Ps that got through |
| `SynchRuns.CreatedSemaphoreHistory` | src/kern/thread/synch.c:18-94 | From its creation on, a semaphore's count is the one it was created with plus the Vs minus the Ps that got through |
| `SynchRuns.FirstPsGetThrough` | src/kern/thread/synch.c:18-82 | Of the Ps on a semaphore created with count n, before any V, exactly the first n get through and the caller of the next one sleeps |
| `SynchRuns.LockHistory` | src/kern/thread/synch.c:145-183 | A lock names a thread as holder exactly when that thread acquired it once more than it released it |
| `SynchRuns.CreatedLockExcludes` | src/kern/thread/synch.c:100-183 | A lock is created free, so mutual exclusion holds from its creation on |
| `SynchRuns.MutualExclusion` | src/kern/thread/synch.c:145-183 | Of any two threads at most one is between its lock_acquire and its lock_release, in every state of every run |
| `ThreadMemory.ZombieStep` | src/kern/thread/thread.c:338-420 | What each event does to the zombies and their room: exits add one, a thread that runs again disposes of all, and only requests make room |
| `ThreadMemory.ZombieHistory` | src/kern/thread/thread.c:338-420 | On every stretch of every run without a disposal the zombies are those at its start plus the exits, and the room has grown for the largest demand on it |
| `ThreadMemory.WhichExitsNeedMemory` | src/kern/thread/thread.c:371-390 | Exactly which exits of a run need memory, from the exits, the forks and the room at the start of the stretch |
| `ThreadMemory.ChainCanPanic` | src/kern/thread/thread.c:371-390 | Runs from booting in which each thread forks the next and exits, with all reservations made: the exit of thread n needs memory exactly when the table has n places |
| `ThreadMemory.ChainRooms` | src/kern/thread/thread.c:371-390 | Which is so for threads 2, 6 and 14 |
| `ThreadMemory.DrainCanPanic` | src/kern/thread/thread.c:103-117 | Runs from booting in which n forked threads exit and the first thread disposes of them: its own exit needs memory exactly for n of 14 or more |
| `ThreadMemory.YieldCanPanic` | src/kern/thread/thread.c:371-390 | After n forks from booting a yield needs memory exactly when the ring has one slot for each of the n + 1 threads |
| `ThreadMemory.IdleWakeupCanPanic` | src/kern/thread/thread.c:531-536 | After all n + 1 threads fell asleep on one address a wakeup in the idle loop needs memory exactly when the ring has one slot for each |
| `ThreadMemory.ExactAt32` | src/kern/thread/thread.c:371-390 | With 31 forks the ring is of that kind |
| `SynchRuns.QueueStep` | src/kern/thread/scheduler.c:87-118 | Only a pick takes from the run queue, and it takes the head; every other event appends or leaves it |
| `SynchRuns.MovesUp` | src/kern/thread/scheduler.c:87-118 | A thread at position k moves up one place with each pick, whatever else happens |
| `SynchRuns.RoundRobin` | src/kern/thread/scheduler.c:87-118 | The thread at position k becomes current with pick number k + 1, whatever forks, yields, sleeps, wakeups, exits and growth happen meanwhile |
| `SynchRuns.ExitedStaysGone` | src/kern/thread/thread.c:430-468 | A thread that exited is never scheduled, queued or put to sleep again |
| `SynchRuns.RunningHasNoAddress` | src/kern/thread/thread.c:496-505 | In every state of every run the running thread has no sleep address left |
| `SynchRuns.SleepAfterFork` | src/kern/thread/thread.c:277-284 | After the first successful fork, going to sleep never allocates, in any later state of the run |
| `ThreadSystem.System.constructor` | src/kern/thread/thread.c:171-211 | The tables are those of the booted system |
| `ThreadSystem.System.Rouse` | src/kern/thread/thread.c:525-536 | One sleeper is taken off the table and queued |
| `ThreadSystem.System.WakeScan` | src/kern/thread/thread.c:512-572 | The scan that removes while it walks does what the transition system's wakeup does, for both variants |
| `ThreadSystem.System.ReserveRoom` | src/kern/thread/thread.c:277-290 | The three reservations in order up to the first failure |
| `ThreadSystem.System.ThreadFork` | src/kern/thread/thread.c:271-307 | The forking section does what the transition system says, success or failure |
| `ThreadSystem.System.Admit` | src/kern/thread/thread.c:298-304 | The new thread is counted |
| `ThreadSystem.System.YieldAway` | src/kern/thread/thread.c:365-390 | The first half of mi_switch for S_READY refines the Yield event |
| `ThreadSystem.System.SleepAway` | src/kern/thread/thread.c:497-503 | thread_sleep up to the scheduler refines going to sleep |
| `ThreadSystem.System.ExitAway` | src/kern/thread/thread.c:463-465 | thread_exit up to the scheduler refines the Exit event |
| `ThreadSystem.System.DisposeZombies` | src/kern/thread/thread.c:103-117 | exorcise empties the zombies; its assertion that none is the running thread holds |
| `ThreadSystem.System.SwitchTo` | src/kern/thread/thread.c:396-415 | The second half of mi_switch refines the Pick event |
| `ThreadSystem.System.Continue` | src/kern/thread/thread.c:504-504 | A thread back from sleep forgets its sleep address |
| `ThreadSystem.System.MakeRunnable` | src/kern/thread/scheduler.c:111-118 | Queues the thread, or fails with nothing changed |
| `ThreadSystem.System.TakeNext` | src/kern/thread/scheduler.c:93-104 | The head of the run queue becomes current |
| `ThreadSystem.System.SemNew` | src/kern/thread/synch.c:18-36 | A semaphore with the given count, or no change without memory; refines the SemCreate event |
| `ThreadSystem.System.LockNew` | src/kern/thread/synch.c:100-122 | A lock that nobody holds, or no change without memory; refines the LockCreate event |
| `ThreadSystem.System.TryDown` | src/kern/thread/synch.c:75-80 | One turn of P's wait loop and the decrement behind it refine the P event |
| `ThreadSystem.System.SemUp` | src/kern/thread/synch.c:89-92 | V refines the V event: count up, wake all who wait |
| `ThreadSystem.System.TryLock` | src/kern/thread/synch.c:156-161 | One turn of lock_acquire's wait loop and what follows it |
| `ThreadSystem.System.LockAcquire` | src/kern/thread/synch.c:151-161 | Refines the Acquire event, with the panic on a second acquire |
| `ThreadSystem.System.LockRelease` | src/kern/thread/synch.c:172-180 | Refines the Release event, with the panic for anybody but the holder |
| `RandomModel.RegisterHoldsTerms` | src/lib/libc/random.c:413-442 | For every degree, separation and run length, after n calls the table read from the front pointer holds terms n to n + deg - 1 of x[n] = x[n-deg] + x[n-sep] modulo 2^32 |
| `RandomModel.StreamIsRecurrence` | src/lib/libc/random.c:413-442 | Every number drawn is the next term of the recurrence without its low bit |
| `RandomModel.TwoPointersShift` | src/lib/libc/random.c:422-441 | Adding at one pointer and moving both is one shift of the register |
| `RandomModel.PointersMove` | src/lib/libc/random.c:428-436 | The pointers stay sep apart modulo deg and never wrap on the same call |
| `RandomModel.SeededStream` | src/lib/libc/random.c:230-247 | From seed to output, with the literal degree and separation of each type: the numbers of a seeded generator are the terms of the recurrence that the seeded table begins, from term 11*deg on |
| `RandomModel.SeedTableAt` | src/lib/libc/random.c:236-240 | Each word of the seeded table comes from the one before by the literal congruence |
| `RandomModel.CongruentialStream` | src/lib/libc/random.c:418-420 | The numbers of type 0 come each from the one before by the literal congruence modulo 2^31 |
| `RandomModel.WordIsBoth` | src/lib/libc/random.c:364-365 | The zeroth word is five times the rear pointer plus the type, by C's truncating operators for negative words too |
| `RandomModel.PackedDecodes` | src/lib/libc/random.c:364-371 | The saved word gives back type and rear pointer |
| `RandomModel.SaveAndRestore` | src/lib/libc/random.c:363-392 | Saving the word and reading it back gives the generator that was running |
| `Random.DrawShifts` | src/lib/libc/random.c:422-441 | One call of random on the real array is one advance of the generator and hands out its output |
| `Random.Generator.DrawAdditive` | src/lib/libc/random.c:420-440 | Next number and next state of the additive generator, with the wrap tests the code leaves out proved unnecessary |
| `Random.Generator.Draw` | src/lib/libc/random.c:413-442 | Next number and next state for every type; the saved word is not touched |
| `Random.Generator.FillTable` | src/lib/libc/random.c:238-240 | The table holds the seed and its linear congruential successors |
| `Random.Generator.Srandom` | src/lib/libc/random.c:230-247 | The seeded generator after its 10*deg steps; the rear pointer is back at the start |
| `Random.Generator.Cycle` | src/lib/libc/random.c:243-244 | 10*deg draws advance the generator that often and bring the pointers back |
| `Random.Generator.Save` | src/lib/libc/random.c:367-371 | The current array then holds the running generator, which is not changed |
| `Random.Generator.InitState` | src/lib/libc/random.c:281-332 | Saves the old generator, then runs the seeded one of the largest type whose table fits; under 8 bytes only the saving happens |
| `Random.Generator.SetState` | src/lib/libc/random.c:353-394 | The generator noted in the array goes on, whatever the array; another array's generator resumes where it stopped and the old one is saved; on the array in use the generator is kept if the word notes its place, and exactly if the table looks the same from both places |
| `Random.Generator.Enter` | src/lib/libc/random.c:377-391 | The pointers are set up for the saved type and rear |
| `Random.SameGen` | src/lib/libc/random.c:384-391 | One array holds the same generator at two places exactly when the types agree and the two rotations of the table are equal |
| `Random.RearReturns` | src/lib/libc/random.c:428-436 | The rear pointer is back where it was exactly after whole turns |
| `Random.Reenter` | src/lib/libc/random.c:341-394 | Entering an array, drawing n numbers and calling setstate on it again keeps the rear pointer exactly when n is a multiple of the degree, and says exactly when the generator is kept |
| `Random.SameArrayLosesPlace` | src/lib/libc/random.c:346-347 | The comment that setstate on the state in use is harmless is false: through the calls themselves, a second number that is 0 becomes 2 |
| `Random.Interleave` | src/lib/libc/random.c:353-453 | For every order of draws and switches between two arrays each generator hands out its own stream without a gap |
| `PrintfModel.RunMeaning` | src/lib/libc/__printf.c:461-553 | For every format and argument list the character-driven machine prints exactly what the format means when read as a grammar of literals and fields |
| `PrintfModel.ModsMeaning` | src/lib/libc/__printf.c:149-206 | After any string of modifiers the machine's flags are what the grammar reads off it: width is the digits as one number, zero fill if the first digit is 0 |
| `PrintfModel.TypeMeaning` | src/lib/libc/__printf.c:487-527 | The type character prints the field's text, takes its argument and resets every flag |
| `PrintfModel.FieldLength` | src/lib/libc/__printf.c:330-369 | Every field prints max(width, text length) characters |
| `PrintfModel.IdleIsFresh` | src/lib/libc/__printf.c:124-138 | Outside a field the machine remembers nothing but the arguments left |
| `PrintfModel.SplitSession` | src/lib/libc/__printf.c:534-553 | A session may be cut at any point outside a field: two calls print the same |
| `PrintfModel.NoNulOutput` | src/lib/libc/__printf.c:461-528 | No NUL is ever printed |
| `PrintfModel.DigitsValue` | src/lib/libc/__printf.c:407-427 | The digits printed in base 8, 10 or 16 stand for the number |
| `PrintfModel.ElevenDigits` | src/lib/libc/__printf.c:54-54 | No 32-bit number needs more than 11 digits in any of the three bases |
| `PrintfModel.OctalFillsBuffer` | src/lib/libc/__printf.c:46-54 | All 11 are needed exactly in octal from 2^30 on, so the buffer has no slack, unlike its comment says |
| `Printf.Printer.constructor` | src/lib/libc/__printf.c:539-546 | A fresh session |
| `Printf.Printer.PrintText` | src/lib/libc/__printf.c:113-119 | Sends the text and counts it |
| `Printf.Printer.EndOfField` | src/lib/libc/__printf.c:124-138 | All ten flags are back at their defaults |
| `Printf.Printer.Modifier` | src/lib/libc/__printf.c:149-206 | One modifier; the assertion on other characters holds |
| `Printf.Printer.FetchNum` | src/lib/libc/__printf.c:213-276 | Magnitude and sign of the argument, with INT_MIN by wrap-around |
| `Printf.Printer.ChooseBase` | src/lib/libc/__printf.c:288-308 | Base and prefix flag of the type |
| `Printf.Printer.Fill` | src/lib/libc/__printf.c:313-322 | The fill character that many times |
| `Printf.Printer.PutStuff` | src/lib/libc/__printf.c:330-369 | One padded field: blanks before the prefixes, zeros after them, or padding on the right |
| `Printf.FillDigits` | src/lib/libc/__printf.c:393-427 | The digits backwards in the 12-character buffer; every store is in bounds, for all three bases |
| `Printf.Convert` | src/lib/libc/__printf.c:378-435 | The text handed on is the number's digits |
| `Printf.Printer.PutNum` | src/lib/libc/__printf.c:378-456 | The number with its prefixes as one field |
| `Printf.Printer.SendChar` | src/lib/libc/__printf.c:461-528 | One character of the format moves the machine as the model does |
| `Printf.VPrintf` | src/lib/libc/__printf.c:534-553 | Everything sent is the meaning of the format; the result is its length |
| `PrintfLaws.MeaningIsRender` | src/lib/libc/__printf.c:461-553 | The output is that of the format's pieces, each field with the argument whose number is how many fields before it take one |
| `PrintfLaws.FieldTakesItsArgument` | src/lib/libc/__printf.c:461-528 | Any one field of any format prints its text with exactly that argument, whatever stands before and behind it |
| `PrintfLaws.ArgumentsTaken` | src/lib/libc/__printf.c:461-553 | The machine has taken as many arguments as complete fields came with one |
| `PrintfLaws.SessionTakes` | src/lib/libc/__printf.c:534-553 | With enough arguments, exactly that many are gone after a session |
| `PrintfLaws.ModifierSet` | src/lib/libc/__printf.c:482-482 | The modifiers are the fourteen characters of the source's list |
| `PrintfLaws.TextPrinted` | src/lib/libc/__printf.c:500-509 | %s prints the string up to its NUL, (null) for a null pointer |
| `PrintfLaws.CharPrinted` | src/lib/libc/__printf.c:511-525 | %c prints the low byte of its argument, nothing for NUL |
| `PrintfLaws.OtherPrinted` | src/lib/libc/__printf.c:511-525 | Every other character prints itself |
| `PrintfLaws.NumberPrinted` | src/lib/libc/__printf.c:213-276 | The digits printed stand for the argument: the word in its base, the magnitude and sign for %d |
| `PrintfLaws.PrefixPrinted` | src/lib/libc/__printf.c:429-445 | 0x for %p and %#x, 0 for %#o, nothing otherwise |
| `PrintfLaws.DigitsAreLower` | src/lib/libc/__printf.c:382-427 | Digits are 0 to 9 and a to f, with no leading zero |
| `PrintfLaws.FieldShape` | src/lib/libc/__printf.c:330-369 | Where the padding of a field goes and what it is made of |
| `Printf.Snp.constructor` | src/lib/libc/snprintf.c:82-89 | The sink keeps one place for the terminator |
| `Printf.Snp.Send` | src/lib/libc/snprintf.c:44-64 | Keeps what there is room for, and everything beyond the position as it was |
| `Printf.VSnprintf` | src/lib/libc/snprintf.c:69-112 | Stores the whole output as a C string if it fits, else its first len - 1 characters, changes nothing else, writes nothing for len 0, and returns the total whatever len is |
| `Atoi.Atoi` | src/lib/libc/atoi.c:20-69 | Blanks, an optional minus and the longest run of digits, reduced to 32 bits; for every string |
| `Atoi.Digits10` | src/lib/libc/atoi.c:39-60 | The wrapping accumulator is the exact value modulo 2^32 |
| `Atoi.ParseOf` | src/lib/libc/atoi.c:27-68 | What is read from blanks, sign, digits and anything else behind them |
| `Atoi.RoundTrip` | src/lib/libc/atoi.c:20-69 | For every 32-bit int and every string of modifiers, reading back %d gives the int exactly unless zeros pad a nonzero number on the right |
| `Atoi.RoundTripWidths` | src/lib/libc/atoi.c:20-69 | %d, %wd, %0wd and %-wd read back as the same int for every width |
| `Atoi.TenfoldDiffers` | src/lib/libc/atoi.c:55-56 | A nonzero 32-bit number times a power of ten is never itself modulo 2^32 |
| `MemCopy.Memmove` | src/lib/libc/memmove.c:48-86 | For every overlap and alignment the destination gets the old source bytes and all other memory is unchanged, by words or bytes, forwards through memcpy or backwards |
| `MemCopy.ExtendDown` | src/lib/libc/memmove.c:73-83 | A backward copy reads only bytes it has not overwritten |
| `MemCopy.Memcpy` | src/lib/libc/memcpy.c:35-55 | The same for every destination that does not start inside the source, which is what memmove relies on |
| `MemCopy.ExtendUp` | src/lib/libc/memcpy.c:42-52 | A forward copy to a lower address reads only bytes it has not overwritten |
| `MemCopy.CopyWord` | src/lib/libc/memcpy.c:42-44 | One word moved as a whole, even onto itself |
| `Bitmap.Bitmap.constructor` | src/kern/lib/bitmap.c:30-64 | The empty set with the leftover bits set; the bytes cover the bits exactly when rounding up does not wrap |
| `Bitmap.MarkLeftover` | src/kern/lib/bitmap.c:50-61 | Exactly the bits behind the last index are set; both assertions hold |
| `Bitmap.Bitmap.Alloc` | src/kern/lib/bitmap.c:72-94 | Sets and returns the least clear index; ENOSPC exactly when the set is full; the index assertion holds and assert(0) is not reached |
| `Bitmap.FindClear` | src/kern/lib/bitmap.c:81-90 | The lowest clear bit of a byte that is not full |
| `Bitmap.Bitmap.Mark` | src/kern/lib/bitmap.c:107-118 | Adds the index; the assertions fail exactly for an index out of range or present |
| `Bitmap.Bitmap.Unmark` | src/kern/lib/bitmap.c:120-131 | Removes the index; the assertions fail exactly for an absent one |
| `Bitmap.Bitmap.IsSet` | src/kern/lib/bitmap.c:134-142 | Membership, and true for leftover bits |
| `Bitmap.MarkedAdd` | src/kern/lib/bitmap.c:115-117 | Setting a bit adds exactly its index to the set and keeps the leftover bits |
| `Bitmap.MarkedRemove` | src/kern/lib/bitmap.c:128-130 | Clearing a bit removes exactly its index and keeps the leftover bits |
| `Bitmap.FullByte` | src/kern/lib/bitmap.c:79-81 | A byte is 0xff exactly when its eight indices are set |
| `Mksfs.WriteBitmap` | src/sbin/mksfs/mksfs.c:86-108 | For every 32-bit size: too large exactly for 131072 < size <= 2^32 - 4096, a double mark exactly for sizes 1 and 2, and otherwise bytes that mark exactly [0, 2+nblocks) and [size, nbits) |
| `Mksfs.MapCovers` | src/sbin/mksfs/mksfs.c:91-92 | The map covers the device exactly when rounding up does not wrap; when it wraps the map has no blocks |
| `Mksfs.SameMask` | src/sbin/mksfs/mksfs.c:79-80 | The mask of mksfs is that of the kernel's bitmap |
| `Mksfs.DoAllocBit` | src/sbin/mksfs/mksfs.c:75-84 | Sets one bit; the assertion fails exactly if it was set |
| `Mksfs.AllocRange` | src/sbin/mksfs/mksfs.c:103-108 | Marks a range, or stops at the first bit set before |
| `Mksfs.FirstBlock` | src/kern/lib/bitmap.c:72-94 | On the written map the kernel's bitmap_alloc first returns the block behind the map, or ENOSPC exactly when the device ends there |
| `CatMouse.StepKeeps` | src/kern/asst1/catsem.c:96-406 | Every step of every animal keeps the invariant: both mutexes guard, busy flags agree with holders, wait counts and tallies agree with where the animals are |
| `CatMouse.RunKeeps` | src/kern/asst1/catsem.c:96-406 | The invariant holds along every run |
| `CatMouse.InitInv` | src/kern/asst1/catsem.c:420-440 | The initial kitchen keeps it, for any numbers of cats and mice |
| `CatMouse.DishesExclusive` | src/kern/asst1/catsem.c:157-188 | In every state of every run each dish is held by at most one animal and marked busy while it is held |
| `CatMouse.BusyIsHeld` | src/kern/asst1/catsem.c:157-188 | Each busy flag is true exactly while some animal holds the dish, also inside dish_sem sections |
| `CatMouse.TwoEaters` | src/kern/asst1/catsem.c:174-177 | At most two animals eat at once |
| `CatMouse.DriverStops` | src/kern/asst1/catsem.c:551-554 | The tallies the driver waits for are reached exactly when every animal has eaten, and all_done was signalled once for each animal past that signal |
| `CatMouse.FirstAlwaysWaits` | src/kern/asst1/catsem.c:143-148 | The first of a group counts itself when it asks whether another waits, so it always lets one in and waits for it; firsts that left never outnumber seconds that left |
| `CatMouseTokens.FewNeverPanic` | src/kern/asst1/catsem.c:164-171 | With four animals or fewer no run ever finds both dishes busy |
| `CatMouseTokens.TokensKept` | src/kern/asst1/catsem.c:118-150 | Permissions to enter are conserved: only letting in another makes one |
| `CatMouseTokens.ReopenMeansTwo` | src/kern/asst1/catsem.c:209-218 | When the kitchen is opened again, two animals have eaten |
| `CatMouseTokens.StepKeepsTokens` | src/kern/asst1/catsem.c:96-406 | At every step: one permission plus one per first that let in another, or two animals have eaten |
| `CatMousePanic.RolesPanic` | src/kern/asst1/catsem.c:164-171 | A run in which a third animal is let in and finds both dishes busy, for any five animals in the five roles |
| `CatMousePanic.PanicIffFive` | src/kern/asst1/catsem.c:164-171 | The panic on both dishes busy is reachable exactly with five animals or more, whatever their kinds |

## Left out

Modelling decisions:

- alloc_kpages and free_kpages are parameters: the page that would be granted is an argument of `KernelHeap.Allocator.KMalloc`, which requires of it what the page allocator promises (aligned, in the address space, disjoint from what the heap manages or has handed out).
- KernelHeap.Allocator.KFree: requires that the pointer is null or live; double frees and foreign pointers are not modelled, the source does not detect the former.
- Words of the in-use table are sequences of 32 Booleans instead of bit vectors; the packed address/type word is a number taken apart by quotient and remainder. `HeapModel.PackMasks` proves the masks to be that quotient and remainder on 32-bit words; the step from words to numbers is by reading.
- Kernel memory is a map from word addresses to words; accesses narrower than a word are not modelled.
- Whether kmalloc would deliver memory is a parameter of every container and thread operation. Integer overflow of ring sizes and array capacities is not modelled: storage of such a size cannot be allocated.
- Threads are named by their incarnation: a thread record that is freed and allocated again counts as another thread, and a lock whose holder exited stays held by the old one.
- The wait loops of P and lock_acquire are one event per turn. Interrupt handlers appear as wakeups, Vs and yields that may come between any two events while a thread runs its own code or the scheduler looks for work, several in a row if one interrupt serves several devices.
- SynchModel.OnlyMisusePanics: assumes that memory is available; when it is not, the conditions are those of the memory lemmas in `ThreadLaws`.
- Semaphore and lock creation takes an address that nothing sleeps on; sem_destroy and lock_destroy are left out, as is reuse of their addresses.
- CatMouse.StepKeeps: semaphores are counters on which P waits for a positive count, as `SynchRuns.SemaphoreHistory` shows them to be; incrementing a wait count is one step.
- The flags no_cat_eat and no_mouse_eat are written and never read, and are left out; the driver's own steps and the destruction of the semaphores are left out.
- Separation of cats from mice is no invariant of catsem.c and is not claimed.
- Random.Generator.SetState: a state word that stands for a type must be in an array large enough for it; the source reads beyond smaller arrays. Partly overlapping state arrays are not modelled.
- The compiled-in default table of random.c is not modelled: a generator starts on any saved state.
- A printf argument that does not match its conversion, or is missing, is read as 0 or "(null)"; in C it is undefined. Field widths and output lengths beyond the range of int are unbounded here.
- int, long and pointers have 32 bits; the long long branches are compiled out in the source and left out here.
- Characters are compared as in ASCII; %c keeps the low eight bits of its argument.
- MemCopy.Memcpy: requires that the destination does not start inside the source; C allows callers even less.
- Addresses that wrap around the end of memory are excluded from copying.
- Bitmap.Bitmap.constructor: allocation failure, which returns NULL before anything exists, is left out.
- Failed assertions of bitmap_mark, bitmap_unmark and doallocbit are results instead of halts.

Not modelled:

- Condition variables: cv_wait releases the lock before interrupts go off, so wakeups can be lost, and no guarantee is claimed.
- thread_panic, thread_killall and scheduler_killall, the shutdown paths.
- md_switch, stacks and their magic numbers, address spaces, vnode reference counts, cpu_idle.
- catlock.c and stoplight.c, pid_factory.c, process.c and file.c: unfinished or broken off at the first call.
- The disk writes, superblock and root directory of mksfs.
- Menu, console, ELF loading, uio, copyin and copyout, the other file system code and the user programs.
- String helpers such as strlen and strchr are used as functions and not modelled as loops.
- kheap_printstats and print_run_queue only print.
