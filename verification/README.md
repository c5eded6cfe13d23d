# A verified model of the Pintos kernel and of a key-value server

The repository has two halves. `pintos` is a small teaching kernel: threads and synchronization,
memory allocators, a file system, a program loader and a C library of its own. `kvstore` is a
key-value server: a chained on-disk store behind a set-associative write-through cache, and a log
for commits. This project models the parts of both whose correctness is hard to see from any one
function and proves them in Dafny.

* **64-bit division** (`Arithmetic`): the software division built on one 64/32 hardware division is
  exact for all operands; the remainder and signed routines are right exactly under stated
  conditions on the divisor.
* **Lists and sorting** (`Seqs`, `Order`, `LinkedList`, `MergeSort`, `ListOps`, `StdSort`): the
  intrusive list is relinked in place on the heap; its natural merge sort is stable and halves the
  number of runs per pass; heapsort sorts an array in place under any total preorder.
* **Allocators** (`Bitmap`, `Palloc`, `Arenas`, `Malloc`): word-packed bits represent an array of
  bits; the page allocator hands out first-fit runs; over every history of malloc and free, live
  blocks are disjoint, counts are exact, and a page goes back exactly with its last block.
* **Threads and synchronization** (`Scheduler`, `Synch`, `SynchInv`, `SynchRuns`, `SynchCalls`): a
  step machine whose runs are all interleavings of the sections the kernel runs with interrupts off.
  One invariant, kept by every step, gives no lost wakeup, mutual exclusion and no lost condition
  signal in every reachable state, and a bound on how long a ready thread waits; what each call has
  achieved when it returns is stated undisturbed and under every interleaving.
* **Files** (`Bytes`, `InodeIO`, `Directory`, `FileState`, `FileSys`): sector-chunked reads and
  writes refine a flat array of bytes; a directory refines a partial map; over every history of
  create, open, reopen, remove and close no sector has two owners, a new file reads as zeros, a write
  changes that file alone, and the sectors of a removed file are released by its last close and not
  before.
* **Hash table, archive headers, loader** (`BinaryNat`, `HashTable`, `Format`, `Ustar`, `PageDir`,
  `Loader`): the rehashing table refines a set under the caller's equivalence; every ustar header
  made parses back; a loaded segment reads back through two-level page tables as its program header
  promises.
* **Key-value server** (`CStrings`, `Options`, `KvStore`, `KvCacheSet`, `KvServer`, `TpcLog`): hash
  chains in files refine a map, the second-chance cache never disagrees with the store, and every
  sequential history is answered as a plain map answers it; the log survives restarts.

Code that updates things in place is modelled by classes and methods with loops and invariants, each
proved against a specification function or predicate whose own properties are the lemmas beside it;
the kernel's concurrency is modelled as steps on values. Integer widths matter and are written out
wherever the original can wrap. What can fail outside the code (memory, devices, files) is a
parameter of the operation.

Where the code and its comments differ the model follows the code:

* `bitmap_scan_and_flip` with a count of 0 returns START, not 0.
* `umod64` and `smod64` return 32 bits; `Umod64Exact` and `Smod64Exact` say for which divisors that
  is enough.
* `malloc` of nearly 2^32 bytes wraps: `BigPagesEnough` and `Malloc.Heap.Malloc` say exactly when the
  block is too small and when the request is refused.
* `kvcacheset_del` does not decrement the entry counter, so a set can count as full with few entries;
  with a single referenced entry the eviction loop then ends without evicting (`FullButForOne`).
* `kvserver_del` takes a lock that is null for an oversized key; `KvServer.Server.Del` requires a key
  in range.
* `list_splice` to a place inside the segment itself cuts the list, and right before the segment's
  first element closes it to a ring; `Splice` states both.
* `filesys_create` does not give back data sectors when adding the name fails; `Create` says exactly
  when and which.
* `tpclog_log` compares the signed result of `write` with an unsigned size, so a failing write
  counts as complete; `ReportedSuccess` says exactly when success means that the entry is on disk.
* `bytes_to_sectors` overflows for lengths near 2^31; `AskedOrTooMany` shows that no device is large
  enough for it to matter.
* A negative size is printed into a ustar header as a large number; `Ustar.RoundTrip` says that
  exactly those headers of regular files are refused.

`dafny verify dfyconfig.toml` checks the whole project.

## Model

| member | source | states |
|---|---|---|
| Arithmetic.Nlz | pintos/src/lib/arithmetic.c:41-73 | the five-step shift count is the number of leading zero bits, which is defined on its own by doubling |
| Arithmetic.LeadingZerosNormalise | pintos/src/lib/arithmetic.c:41-73 | shifting left by that number puts the top bit of the word in place and loses nothing |
| Arithmetic.SmallDivisor | pintos/src/lib/arithmetic.c:82-111 | a divisor of 32 bits: the partial divl cannot trap and the two partial quotients add up to the floor of n/d |
| Arithmetic.NoTrap | pintos/src/lib/arithmetic.c:115-125 | a larger divisor: dividing n/2 by the normalised top word gives a quotient of at most 32 bits, so divl cannot trap |
| Arithmetic.EstimateOffByAtMostOne | pintos/src/lib/arithmetic.c:115-125 | the shifted estimate is the true quotient or one more |
| Arithmetic.CorrectedEstimate | pintos/src/lib/arithmetic.c:124 | the test in wrapping 64-bit arithmetic picks the true quotient from the two candidates |
| Arithmetic.Udiv64 | pintos/src/lib/arithmetic.c:77-127 | the result is exactly n / d for every 64-bit n and nonzero d, on every branch |
| Arithmetic.Umod64Value | pintos/src/lib/arithmetic.c:131-135 | the result is n mod d cut to 32 bits |
| Arithmetic.Umod64Exact | pintos/src/lib/arithmetic.c:131-135 | the remainder is right for all n if and only if d <= 2^32 |
| Arithmetic.TruncModBounds | pintos/src/lib/arithmetic.c:139-154 | the reference quotient truncates toward zero: |remainder| < |d| and its sign is that of n |
| Arithmetic.Sdiv64Value | pintos/src/lib/arithmetic.c:139-146 | the result is the truncated quotient brought into 64 bits |
| Arithmetic.Sdiv64Exact | pintos/src/lib/arithmetic.c:139-146 | it is the truncated quotient if and only if not INT64_MIN / -1 |
| Arithmetic.Smod64Value | pintos/src/lib/arithmetic.c:150-154 | the result is the truncated remainder cut to 32 bits |
| Arithmetic.Smod64Exact | pintos/src/lib/arithmetic.c:150-154 | it is the truncated remainder for all n if and only if |d| <= 2^31 |
| LinkedList.List.constructor | pintos/src/lib/kernel/list.c:60-68 | an empty list: two sentinels linked to each other |
| LinkedList.List.Insert | pintos/src/lib/kernel/list.c:168-178 | the element is linked in at that position, both ways, and no other link changes |
| LinkedList.List.Remove | pintos/src/lib/kernel/list.c:248-255 | exactly that element leaves the chain; the one behind it is returned |
| LinkedList.List.Splice | pintos/src/lib/kernel/list.c:183-204 | BEFORE outside the segment: it moves to its new place in one piece, nothing lost or duplicated; BEFORE inside it: it is cut out and left as two rings; BEFORE its first element: the way from the head ends in a ring of the segment, and no way along next leads to the tail |
| LinkedList.List.SpliceFrom | pintos/src/lib/kernel/list.c:183-204 | the segment of one list moves to the given place of another; both lists are in order |
| LinkedList.NeverAtTail | pintos/src/lib/kernel/list.c:195-203 | a way from the head that closes to a ring in front of the tail: every sequence that follows next from the head misses the tail |
| LinkedList.List.FindEndOfRun | pintos/src/lib/kernel/list.c:357-372 | the returned position is the end of the nondecreasing run that starts at A |
| LinkedList.List.InplaceMerge | pintos/src/lib/kernel/list.c:379-399 | the two adjacent runs are replaced in place by their stable merge, the rest of the chain is unchanged |
| Order.MergeSorted | pintos/src/lib/kernel/list.c:379-399 | the merge of two sorted runs is sorted, for every strict weak order |
| Order.MergeStable | pintos/src/lib/kernel/list.c:379-399 | for every element, those equivalent to it come out in the order of the first run, then the second |
| Order.MergeMultiset | pintos/src/lib/kernel/list.c:379-399 | the merge holds exactly the elements of both runs |
| Order.OneRunIsSorted | pintos/src/lib/kernel/list.c:404-440 | a sequence that is one run is sorted |
| MergeSort.PassMerge | pintos/src/lib/kernel/list.c:404-440 | merging two neighbouring runs in a pass keeps stability and accounts for two input runs by one output run |
| MergeSort.MergePass | pintos/src/lib/kernel/list.c:404-440 | one pass: n runs come out as at most (n + 1) / 2, the returned count; the contents are a stable rearrangement |
| MergeSort.Sort | pintos/src/lib/kernel/list.c:404-440 | terminates with the same nodes correctly linked both ways, sorted, equivalent elements in their original order |
| ListOps.Reverse | pintos/src/lib/kernel/list.c:325-337 | the same nodes, linked both ways, in the opposite order |
| StdSort.LargestIsGreatest | pintos/src/lib/stdlib.c:101-112 | the index heapify computes is that of a greatest of a node and its children |
| StdSort.FloatDown | pintos/src/lib/stdlib.c:114-122 | one exchange moves the defect of the heap to that child and nowhere else |
| StdSort.Heapify | pintos/src/lib/stdlib.c:96-123 | a heap except at node i becomes a heap from node i on; the first cnt elements are rearranged, the others untouched |
| StdSort.RootIsGreatest | pintos/src/lib/stdlib.c:146-151 | the first node of a heap is not below any other |
| StdSort.BuildHeap | pintos/src/lib/stdlib.c:142-144 | the first loop turns any array into a heap of the same elements |
| StdSort.Extract | pintos/src/lib/stdlib.c:146-151 | one round of the second loop puts one more element in its final place and keeps a heap before it |
| StdSort.Sort | pintos/src/lib/stdlib.c:131-152 | a sorted permutation of the input, for every total preorder comparison |
| StdSort.BinarySearch | pintos/src/lib/stdlib.c:184-207 | returns an index that compares equal, and reports none exactly when there is none |
| Bitmap.OneBitChanges | pintos/src/lib/kernel/bitmap.c:155-179 | OR with a mask sets one bit of a word and AND with its complement clears it; the other 31 bits stay |
| Bitmap.Bits.constructor | pintos/src/lib/kernel/bitmap.c:78-94 | all bits are clear, whatever was in the memory |
| Bitmap.Bits.Set | pintos/src/lib/kernel/bitmap.c:143-179 | exactly the bit asked for changes in the array of bits that the words represent |
| Bitmap.Bits.Test | pintos/src/lib/kernel/bitmap.c:196-203 | returns that bit of the represented array |
| Bitmap.Bits.SetMultiple | pintos/src/lib/kernel/bitmap.c:216-228 | the bits in the range become VALUE, the others stay |
| Bitmap.Bits.Contains | pintos/src/lib/kernel/bitmap.c:248-263 | false exactly when all bits in the range are !VALUE |
| Bitmap.Bits.Scan | pintos/src/lib/kernel/bitmap.c:291-310 | the least start of a run of CNT bits equal to VALUE at or after START, or an error exactly when there is none |
| Bitmap.Bits.ScanAndFlip | pintos/src/lib/kernel/bitmap.c:312-326 | first fit, and exactly that run is flipped |
| Palloc.BitmapFits | pintos/src/threads/palloc.c:153-170 | the bitmap for the pages that are left fits in the pages taken for it, as bitmap_create_in_buf asserts |
| Palloc.BitmapSize | pintos/src/threads/palloc.c:153-170 | a bitmap takes 8 bytes and just enough 32-bit words, and just enough pages |
| Palloc.Allocator.constructor | pintos/src/threads/palloc.c:43-62 | two disjoint pools inside the free memory, all pages free; the user pool takes half of the free pages, at most the limit, the kernel pool the rest, each less the pages of its bitmap |
| Palloc.RunsOfPool | pintos/src/threads/palloc.c:64-101 | the bitmap shows a run of free pages exactly when the pool has one |
| Palloc.Allocator.GetMultiple | pintos/src/threads/palloc.c:64-101 | CNT adjacent pages of the chosen pool that were free are now in use, first fit; null exactly when CNT is 0 or that pool has no such run, even if the other has one |
| Palloc.Allocator.GetPage | pintos/src/threads/palloc.c:103-114 | null exactly when the chosen pool is exhausted; otherwise that pool has one free page less and the other as many as before |
| Palloc.Allocator.FreeMultiple | pintos/src/threads/palloc.c:116-142 | exactly these pages become free; being in use, they lie in one pool, so the assertions hold |
| Arenas.BlockPlace | pintos/src/threads/malloc.c:266-294 | every block lies behind the header inside its page, and page and index are recovered from its address |
| Arenas.BlocksApart | pintos/src/threads/malloc.c:284-294 | blocks of different index do not overlap |
| Arenas.LiveInside | pintos/src/threads/malloc.c:87-154 | in every state, a live block lies inside the pages of its arena and holds at least the bytes asked for, unless size plus header wrapped |
| Arenas.LiveDisjoint | pintos/src/threads/malloc.c:87-154 | in every state, two live blocks share no byte |
| Arenas.TakeInv | pintos/src/threads/malloc.c:148-153 | taking the first free block keeps the invariant: free_cnt is the number of its blocks on the free list, no arena wholly free |
| Arenas.AddArenaInv | pintos/src/threads/malloc.c:124-146 | a new page cut into blocks keeps it, the new arena being wholly free for the moment |
| Arenas.PutBackInv | pintos/src/threads/malloc.c:227-243 | putting a live block on the free list keeps it; free_cnt never exceeds the number of blocks |
| Arenas.DropArenaInv | pintos/src/threads/malloc.c:241-253 | taking all blocks of a wholly free arena off the list and its page away keeps it; no live block was there |
| Arenas.AddBigInv | pintos/src/threads/malloc.c:105-120 | a big block on fresh pages keeps it |
| Arenas.DropBigInv | pintos/src/threads/malloc.c:257-262 | giving its pages back keeps it; the block was the only one there |
| Malloc.BigPagesEnough | pintos/src/threads/malloc.c:109 | in 32-bit arithmetic the pages asked for suffice if and only if size plus header does not wrap, and then one less would not; none are asked for exactly in the range where only rounding up wraps, and one where the header wraps |
| Malloc.Heap.constructor | pintos/src/threads/malloc.c:70-85 | seven descriptors, 16 to 1024 bytes, with their blocks per arena and empty lists |
| Malloc.Heap.FindDesc | pintos/src/threads/malloc.c:100-105 | the smallest descriptor whose blocks hold SIZE bytes, if any |
| Malloc.Heap.Malloc | pintos/src/threads/malloc.c:87-154 | null if and only if SIZE is 0, or the free list that serves it is empty and too few adjacent pages are free; from a free list it is the first block of the one with the smallest blocks that suffice; otherwise it begins 12 bytes into a new arena at the first fit, of one page for at most 1024 bytes and of just enough pages for more; it holds SIZE bytes if and only if size plus header does not wrap; no other block changes |
| Malloc.FreeThenMalloc | pintos/src/threads/malloc.c:87-262 | a block freed while its arena has another live one is the next handed out for its size, and the free lists are as before |
| Arenas.BlockSizes | pintos/src/threads/malloc.c:71-85 | seven descriptors with blocks of 16, 32, ... 1024 bytes |
| Arenas.Packed | pintos/src/threads/malloc.c:71-85 | as many blocks as fit in a page behind the header, and not one more |
| Malloc.Heap.CarveArena | pintos/src/threads/malloc.c:137-146 | all blocks of the new arena are on the free list |
| Malloc.Heap.Free | pintos/src/threads/malloc.c:216-264 | exactly that block stops being live; its pages go back exactly when it was the last live block of its arena |
| Malloc.PushBlocks | pintos/src/threads/malloc.c:141-145 | the loop appends the blocks of the arena in order |
| Malloc.RemoveBlocks | pintos/src/threads/malloc.c:247-251 | the loop removes exactly the blocks of the arena |
| Malloc.StillLive | pintos/src/threads/malloc.c:241-243 | an arena that is not wholly free holds a live block |
| Scheduler.ScheduleOk | pintos/src/threads/thread.c:490-566 | switching threads re-establishes: one running thread, ready list exactly the ready threads, each once, idle not on it; `FullSlice` says that a new slice begins |
| Scheduler.BlockOk | pintos/src/threads/thread.c:213-221 | kept by thread_block |
| Scheduler.UnblockOk | pintos/src/threads/thread.c:231-243 | kept by thread_unblock of a blocked thread |
| Scheduler.YieldOk | pintos/src/threads/thread.c:301-315 | kept by thread_yield |
| Scheduler.ExitOk | pintos/src/threads/thread.c:280-297 | kept by thread_exit |
| Scheduler.CreateOk | pintos/src/threads/thread.c:165-205 | kept by thread_create |
| Scheduler.TickOk | pintos/src/threads/thread.c:122-140 | kept by a timer tick, with or without preemption |
| Scheduler.RunOk | pintos/src/threads/thread.c:122-566 | kept over every run |
| Scheduler.ReadyAdvances | pintos/src/threads/thread.c:490-497 | each rescheduling moves every ready thread one place forward and dispatches the first; nothing else reorders the list |
| Scheduler.FirstInFirstOut | pintos/src/threads/thread.c:490-566 | over every run, the thread at index i of the ready list is dispatched by exactly the (i + 1)-th call of schedule, and is at index i - c after c calls |
| Scheduler.DispatchedWithin | pintos/src/threads/thread.c:122-140 | over every run, the thread at index i of the ready list runs within 4 * i ticks and what is left of the present slice |
| Scheduler.DispatchedInTime | pintos/src/threads/thread.c:122-140 | hence within 4 * (i + 1) timer ticks |
| Scheduler.FullSlice | pintos/src/threads/thread.c:122-140 | over every run: who has just been dispatched, and does not give up the processor, keeps it for as long as fewer than four ticks have come |
| Scheduler.SliceEnds | pintos/src/threads/thread.c:122-140 | the fourth tick hands the processor to the first on the ready list; alone, the thread goes on |
| Scheduler.GoesLast | pintos/src/threads/thread.c:231-315 | who is unblocked or created, or yields, goes to the end of the ready list; the idle thread does not go on it |
| Scheduler.ExitIsFinal | pintos/src/threads/thread.c:280-297 | over every run: a thread that has exited never runs again |
| Scheduler.BlockedUntilUnblocked | pintos/src/threads/thread.c:213-243 | over every run: a thread that has blocked does not run before it is unblocked |
| SynchInv.BlockInv | pintos/src/threads/synch.c:60-76 | queueing up and blocking on a zero semaphore keeps the invariant |
| SynchInv.TakeInv | pintos/src/threads/synch.c:60-102 | taking a unit, by sema_down or a successful try, keeps it |
| SynchInv.GiveInv | pintos/src/threads/synch.c:108-121 | sema_up, by a thread or an interrupt, keeps it |
| SynchInv.SetHolderInv | pintos/src/threads/synch.c:192-201 | recording the holder keeps it; the thread is the only owner |
| SynchInv.ClearHolderInv | pintos/src/threads/synch.c:228-236 | clearing the holder before the sema_up keeps it |
| SynchInv.InitWaiterInv | pintos/src/threads/synch.c:287-302 | initialising the waiter semaphore finds it unused |
| SynchInv.PushWaiterInv | pintos/src/threads/synch.c:287-302 | entering the waiter list: from here on the wait is accounted for |
| SynchInv.PopWaiterInv | pintos/src/threads/synch.c:311-338 | taking the first waiter off the list makes its signal one in flight |
| SynchInv.MutualExclusion | pintos/src/threads/synch.c:192-236 | two owners of a lock are the same thread, and its semaphore is 0 meanwhile |
| SynchRuns.NextInv | pintos/src/threads/synch.c:60-338 | every step of every thread, the timer and interrupt handlers keeps the whole invariant; what the calls achieve is `SynchCalls` |
| SynchRuns.InitInv | pintos/src/threads/synch.c:44-51 | it holds after initialisation |
| SynchRuns.After | pintos/src/threads/synch.c:60-338 | every state reached by any run satisfies it |
| SynchRuns.SleeperOnOneList | pintos/src/threads/synch.c:60-76 | over every run and for every thread: on a waiter list it is asleep in that semaphore, there once, on no other waiter list, not ready, not running and not the idle thread; every sleeper but idle is on such a list |
| SynchRuns.NoLostWakeup | pintos/src/threads/synch.c:60-121 | over every run, while someone sleeps the value is at most the number of woken threads that have not tried again; if it is positive such a thread is ready or running |
| SynchRuns.LockExclusive | pintos/src/threads/synch.c:192-236 | over every run, a lock has at most one owner, its value is 0 exactly while it has one, and never above 1 |
| SynchRuns.NoLostSignal | pintos/src/threads/synch.c:287-322 | over every run, a thread asleep in cond_wait is still listed with no signal under way, or unlisted with exactly one |
| SynchRuns.SignalFindsWaiter | pintos/src/threads/synch.c:287-338 | over every run, a waiter that has posted itself and received no signal is on the list cond_signal takes from, also between lock_release and sema_down |
| SynchCalls.UpOutcome | pintos/src/threads/synch.c:108-121 | sema_up undisturbed: one unit more, the first waiter is at the end of the ready list, and nothing else changed |
| SynchCalls.DownOutcome | pintos/src/threads/synch.c:60-76 | sema_down undisturbed: a unit is taken and nothing else changes, or, without one, the caller is last on the waiter list and asleep |
| SynchCalls.TryDownOutcome | pintos/src/threads/synch.c:83-102 | sema_try_down takes a unit if there is one and otherwise changes nothing |
| SynchCalls.AcquireOutcome | pintos/src/threads/synch.c:192-201 | lock_acquire of a free lock undisturbed: the caller holds it, its unit is taken, nothing else changed |
| SynchCalls.AcquireWaits | pintos/src/threads/synch.c:192-201 | lock_acquire of a held lock: the caller sleeps at the end of its waiter list |
| SynchCalls.TryAcquireOutcome | pintos/src/threads/synch.c:209-221 | lock_try_acquire gets the lock exactly when it is free, otherwise nothing changes |
| SynchCalls.ReleaseOutcome | pintos/src/threads/synch.c:228-236 | lock_release: nobody holds the lock, its unit is back, the first waiter is ready |
| SynchCalls.SignalOutcome | pintos/src/threads/synch.c:311-322 | cond_signal: exactly the first waiter is off the list and its semaphore one unit up; nothing happens on an empty list |
| SynchCalls.BroadcastOutcome | pintos/src/threads/synch.c:330-338 | cond_broadcast with n waiters, after 2 n + 1 steps: the list is empty, the caller is out of the call and still holds the lock, the semaphore of each waiter that was listed is one unit up |
| SynchCalls.WaitOutcome | pintos/src/threads/synch.c:287-302 | cond_wait: the caller is last on the condition list, the lock is given back, and it sleeps on its own empty semaphore |
| SynchCalls.CallReturns | pintos/src/threads/synch.c:60-338 | under every interleaving: when lock_acquire or cond_wait returns its caller holds the lock, when lock_release returns it does not, when cond_broadcast returns the condition list is empty and the caller holds the lock |
| InodeIO.AddressFits | pintos/src/filesys/inode.c:42-54 | byte POS of a file is in the sector and at the offset byte_to_sector names |
| InodeIO.FewestSectors | pintos/src/filesys/inode.c:23-29 | just enough sectors for the length |
| InodeIO.AvailableIs | pintos/src/filesys/inode.c:200-318 | the count of `ReadAt` and `WriteAt`: all of the request or all that the file has from there on; none exactly for an empty or negative request or behind the end |
| InodeIO.ReadAt | pintos/src/filesys/inode.c:200-250 | transfers min(size, max(0, length - offset)) bytes, each equal to the file byte, and leaves the rest of the buffer alone; without a bounce buffer a prefix of that |
| InodeIO.WriteAt | pintos/src/filesys/inode.c:257-318 | exactly the bytes at that place of the device change, whole sectors and partial ones alike; the same count; nothing when writes are denied |
| InodeIO.WriteChunk | pintos/src/filesys/inode.c:284-308 | one sector: only the bytes of the chunk change |
| InodeIO.ReadAfterWrite | pintos/src/filesys/inode.c:200-318 | after a write the file is the old one with the written bytes in place |
| InodeIO.OtherFileKept | pintos/src/filesys/inode.c:257-318 | a file on other sectors is unchanged |
| InodeIO.AskedOrTooMany | pintos/src/filesys/inode.c:23-29 | the sector count, whose sum wraps around above 0x7ffffe00 bytes, is right below, and above it both the wrapped and the true count exceed every device that is accepted |
| InodeIO.InodeRoundTrip | pintos/src/filesys/inode.c:15-21 | an on-disk inode decodes to the extent encoded |
| InodeIO.InodeLayout | pintos/src/filesys/inode.c:15-21 | its bytes: first sector and length least significant byte first, the magic number, zeros |
| InodeIO.WriteInode | pintos/src/filesys/inode.c:92-100 | the header goes to its sector and zeros to all data sectors; no other sector changes |
| InodeIO.NewFileIsZero | pintos/src/filesys/inode.c:93-100 | a new file reads as zeros, whatever the sectors held before |
| Directory.Encode | pintos/src/filesys/directory.c:16-22 | a 20-byte entry decodes to what was encoded |
| Directory.MatchesName | pintos/src/filesys/directory.c:103 | on a terminated field, strcmp equality is equality with the stored string |
| Directory.SlotWritten | pintos/src/filesys/directory.c:171-175 | writing an entry changes that slot and no other |
| Directory.TailWritten | pintos/src/filesys/directory.c:159-175 | a short write behind the last entry changes no slot |
| Directory.Dir.Lookup | pintos/src/filesys/directory.c:91-112 | found exactly when the map has the name; returns its entry and offset |
| Directory.Dir.FindFree | pintos/src/filesys/directory.c:159-169 | the first free slot, or the end |
| Directory.FreeSlots | pintos/src/filesys/directory.c:159-169 | a slot is free exactly when there are fewer names than slots |
| Directory.RemoveMakesRoom | pintos/src/filesys/directory.c:184-216 | after any remove there are fewer names than slots, so a new name fits |
| Directory.EntryLayout | pintos/src/filesys/directory.c:17-22 | the 20 bytes of an entry: sector, name field, flag |
| Directory.Dir.Add | pintos/src/filesys/directory.c:141-179 | succeeds exactly when the name has 1 to 14 characters and is absent, writes are allowed and there are fewer names than slots; then the first free slot holds the name, otherwise no slot changes; other files stay |
| Directory.Dir.Remove | pintos/src/filesys/directory.c:184-216 | succeeds exactly when the name is bound, its inode opens and writes are allowed; then its slot is free again, every other slot as before, and there is room for another name |
| Directory.Dir.ReadDir | pintos/src/filesys/directory.c:221-236 | returns the next name in use and moves just behind it, or reports the end |
| Directory.ListingOnce | pintos/src/filesys/directory.c:218-236 | reading from the beginning lists every bound name exactly once |
| FileState.BitsInv | pintos/src/filesys/free-map.c:27-50 | marking sectors, or clearing sectors nobody owns, keeps the ownership invariant |
| FileState.FreeIsUnowned | pintos/src/filesys/free-map.c:27-41 | a free sector belongs to no live inode, removed but open ones included |
| FileState.NameInv | pintos/src/filesys/filesys.c:46-59 | naming a new inode on sectors nobody owned keeps it |
| FileState.OpenInv | pintos/src/filesys/inode.c:111-151 | opening or reopening keeps it; the open count is the number of openers |
| FileState.CloseInv | pintos/src/filesys/inode.c:163-186 | closing keeps it |
| FileState.LastClose | pintos/src/filesys/inode.c:176-182 | after the last close of a removed inode its sectors are all still in use and nobody's, so both releases are safe |
| FileState.RemoveInv | pintos/src/filesys/inode.c:190-195 | removing the name and marking the inode keeps it |
| FileState.OpenThenClose | pintos/src/filesys/file.c:17-54 | closing a file just opened restores the state |
| FileState.OpenOutcome | pintos/src/filesys/inode.c:111-151 | the new file does not deny writes, its inode has one opener more or is read from the device, all else is as before |
| FileState.CloseOutcome | pintos/src/filesys/inode.c:163-186 | the file and what it counted for are gone; the inode stays open exactly while another file is on it |
| FileState.Counted | pintos/src/filesys/inode.c:322-338 | the deny count is the number of denying openers, at most the open count |
| FileState.DenyInv | pintos/src/filesys/file.c:118-141 | denying and allowing writes keep it, and the assertions of inode_deny_write and inode_allow_write hold |
| FileState.DenyOutcome | pintos/src/filesys/file.c:118-141 | only the flag of the file and the count of its inode change; the count is positive exactly when some file denies writes |
| FileSys.FormattedInv | pintos/src/filesys/filesys.c:94-103 | a freshly formatted file system satisfies the invariant |
| FileSys.FileSystem.constructor | pintos/src/filesys/filesys.c:17-31 | formatting a device of any contents puts both permanent inodes on it with disjoint data; exactly the first sectors are in use |
| FileSys.FileSystem.Allocate | pintos/src/filesys/free-map.c:27-41 | first fit; succeeds exactly when a run is free and the map could be written; the sectors are nobody's; on failure the map is as before |
| FileSys.FileSystem.Release | pintos/src/filesys/free-map.c:44-50 | exactly these sectors become free; its assertion is a precondition, met at every call |
| FileSys.FileSystem.InodeCreate | pintos/src/filesys/inode.c:72-106 | succeeds exactly when memory, a free run and the map write are there; the new inode owns its sectors alone, its file reads as zeros, live files keep every byte; on failure nothing changed |
| FileSys.FileSystem.Create | pintos/src/filesys/filesys.c:45-59 | succeeds exactly when both allocations go through and the directory takes the name; a failed create changes the free map exactly when both went through and the size is positive, and then the data sectors, and no others, are marked and nobody's; a new file is all zeros on sectors free before; live files keep every byte |
| FileSys.LosesSector | pintos/src/filesys/filesys.c:45-59 | a concrete case: on a device of 64 sectors, just formatted, creating a file with the empty name leaves a free sector marked and unowned |
| FileSys.FileSystem.InodeOpen | pintos/src/filesys/inode.c:111-151 | one more opener of the same inode, or a new open inode read from the device |
| FileSys.FileSystem.Open | pintos/src/filesys/filesys.c:66-77 | succeeds exactly when the root directory opens, the name is there, its inode is open or memory is there for it, and a struct file; then a new opener of that inode, otherwise everything as before |
| FileSys.FileSystem.Reopen | pintos/src/filesys/file.c:38-42 | a new opener of the same inode, or everything as before |
| FileSys.FileSystem.Close | pintos/src/filesys/file.c:45-54 | sectors are released by the last close of a removed inode, all of them and only then |
| FileSys.FileSystem.ReleaseInode | pintos/src/filesys/inode.c:176-182 | header and data sectors are cleared and no others |
| FileSys.FileSystem.Remove | pintos/src/filesys/filesys.c:83-91 | succeeds exactly when the root directory opens, the name is there, its inode opens and the directory can be written; the name goes, the sectors at once exactly when nobody has the inode open, otherwise it is marked; on failure everything as before |
| FileSys.CreateThenRemove | pintos/src/filesys/filesys.c:45-97 | a file created and removed before anybody opens it leaves the free map, the directory and the open files as they were, and every live file its bytes |
| FileSys.FileSystem.SetDeny | pintos/src/filesys/file.c:118-141 | the deny count stays within the open count |
| FileSys.FileSystem.Write | pintos/src/filesys/file.c:109-114 | nothing while writes are denied; otherwise the file is the old one with the bytes in place, every other live file keeps every byte, and all inodes stay readable |
| FileSys.FileSystem.Read | pintos/src/filesys/file.c:81-85 | the bytes of the file as they are on the device, whoever wrote them |
| FileSys.WriteStep | pintos/src/filesys/inode.c:257-318 | writing data of a live inode keeps the whole invariant and every live header on the device |
| FileSys.SectorsExclusive | pintos/src/filesys/inode.c:72-195 | in every state no sector has two live owners and none of theirs is free |
| FileSys.LiveFilesIndependent | pintos/src/filesys/inode.c:257-318 | in every state, writing to one live file changes no byte of another |
| BinaryNat.PowerTest | pintos/src/lib/kernel/hash.c:329-340 | clearing the lowest 1 bit gives zero exactly for powers of two |
| BinaryNat.TurnOffFloor | pintos/src/lib/kernel/hash.c:371-372 | otherwise the result is smaller, positive and under the same power of two |
| BinaryNat.MaskIsRemainder | pintos/src/lib/kernel/hash.c:305-310 | masking with a power of two less one is taking the remainder |
| HashTable.Wanted | pintos/src/lib/kernel/hash.c:364-372 | the loop yields the greatest power of two at most max(4, cnt / 2) |
| HashTable.WantedFor | pintos/src/lib/kernel/hash.c:364-372 | a power of two, 4 below 8 elements, otherwise the greatest that is at most half their number |
| HashTable.FindElem | pintos/src/lib/kernel/hash.c:314-326 | an element of the bucket equal to E, or none exactly when there is none |
| HashTable.MoveAll | pintos/src/lib/kernel/hash.c:387-410 | after moving, the new buckets hold exactly the same elements, each in the bucket its hash names |
| HashTable.Table.constructor | pintos/src/lib/kernel/hash.c:24-42 | an empty table of four buckets |
| HashTable.Table.Find | pintos/src/lib/kernel/hash.c:131-135 | the one element equal to E in the whole table, or none exactly when there is none |
| HashTable.Table.Rehash | pintos/src/lib/kernel/hash.c:351-413 | the same set; with memory the wanted number of buckets, and fewer than four elements per bucket; without it no change |
| HashTable.Table.Insert | pintos/src/lib/kernel/hash.c:98-110 | adds E exactly when no equal element is there, otherwise returns that one |
| HashTable.Table.Replace | pintos/src/lib/kernel/hash.c:114-127 | E is in, the equal element, if any, is out and returned |
| HashTable.Table.Delete | pintos/src/lib/kernel/hash.c:144-154 | removes and returns the equal element, if any, and nothing else |
| HashTable.Next | pintos/src/lib/kernel/hash.c:218-235 | returns the first element still ahead and leaves the others ahead |
| HashTable.IterationOnce | pintos/src/lib/kernel/hash.c:200-235 | from hash_first on, every element is ahead exactly once |
| Format.FormatInteger | pintos/src/lib/stdio.c:469-555 | the output is the digits of the value, filled up to the precision and padded to the width; the 64-byte buffer suffices |
| Format.DigitCharIs | pintos/src/lib/stdio.c:136-141 | the digits are 0 to 9 and a to f |
| Format.BodyNumber | pintos/src/lib/stdio.c:501-522 | read back in the base of the conversion the digits give the value; there are as many as the precision asks for, or as many as needed and then no leading zero |
| Format.FormattedShape | pintos/src/lib/stdio.c:526-546 | the field has the width or more; the digits are on its left or right, next to blanks or zeros as the flags say |
| Format.PaddedOctal | pintos/src/lib/stdio.c:501-544 | a zero-padded octal conversion that fits prints exactly the W octal digits of the number |
| Ustar.Strip | pintos/src/lib/ustar.c:65-73 | the loop computes the stripped name, which `StrippedIsRest` characterises |
| Ustar.StrippedIsRest | pintos/src/lib/ustar.c:56-73 | every name is a concatenation of "/", "./" and "../" followed by a rest without such a prefix; stripping gives that rest, or "." if it is empty or ".." |
| Ustar.StrippedIsSafe | pintos/src/lib/ustar.c:56-73 | the stripped name has no dangerous prefix and is neither empty nor ".." |
| Ustar.StripTwice | pintos/src/lib/ustar.c:65-73 | stripping is idempotent |
| Ustar.ParseIsValue | pintos/src/lib/ustar.c:120-162 | a number is returned if and only if the field begins with octal digits, at least one, then a space or null byte, and their value is the number and fits in 32 bits |
| Ustar.ParseOctalField | pintos/src/lib/ustar.c:129-162 | the loop returns exactly that number, or nothing |
| Ustar.OctalRoundTrip | pintos/src/lib/ustar.c:106-162 | a printed octal field parses to the number printed |
| Ustar.CalculateChksum | pintos/src/lib/ustar.c:36-54 | the sum of the bytes, the checksum field counted as spaces |
| Ustar.ChecksumIs | pintos/src/lib/ustar.c:36-54 | it is the sum of the bytes in front of the field, eight blanks and the bytes behind |
| Ustar.SumSame | pintos/src/lib/ustar.c:46-51 | it does not depend on the checksum field and fits in it |
| Ustar.PutString | pintos/src/lib/stdio.c:25-52 | at most SIZE - 1 characters and a null byte, nothing beyond |
| Ustar.MakeHeader | pintos/src/lib/ustar.c:82-118 | all 512 bytes of the header; fails exactly when the stripped name exceeds 99 characters, leaving the buffer alone |
| Ustar.HeaderLayout | pintos/src/lib/ustar.c:82-118 | field by field at its offset: name, mode 0644 or 0755, owner and group 0, size, the fixed time, that checksum, type, magic, version, root twice, zeros elsewhere |
| Ustar.ParseSound | pintos/src/lib/ustar.c:175-227 | for every 512-byte header: it is taken for a file exactly when magic, version, checksum, name terminator, type and size field are right, and then the name has no dangerous prefix, is neither empty nor "..", has at most 99 characters, and the size is an int |
| Ustar.ParseHeader | pintos/src/lib/ustar.c:181-227 | end of archive exactly for all zeros, a file exactly for an acceptable header and then a safe one, otherwise the first error in the order of the checks |
| Ustar.RoundTrip | pintos/src/lib/ustar.c:82-227 | every header made parses to the stripped name, the type and the size (0 for directories); only negative sizes of regular files are refused |
| PageDir.SetOne | pintos/src/userprog/pagedir.c:98-119 | setting an entry maps that page and changes no other mapping |
| PageDir.AddressParts | pintos/src/threads/pte.h:18-40 | an address is split in 10 bits for the directory, 10 for the table and 12 for the place in the page |
| PageDir.NewTable | pintos/src/userprog/pagedir.c:68-81 | creating an empty page table maps nothing |
| Loader.PlanOk | pintos/src/userprog/process.c:276-306 | for every accepted header nothing wraps or underflows, load_segment's assertions hold, and all pages lie above page 0, below PHYS_BASE and around the segment |
| Loader.NoWrap | pintos/src/userprog/process.c:349-359 | the two range checks together exclude wrap-around |
| Loader.NextTable | pintos/src/userprog/pagedir.c:58-86 | one page more takes a new page table exactly when none covers it yet |
| Loader.AddressSpace.InstallPage | pintos/src/userprog/process.c:461-470 | succeeds exactly when the page is unmapped and its table exists or a kernel page is free; takes exactly that page; on failure nothing changes |
| Loader.AddressSpace.LoadPage | pintos/src/userprog/process.c:396-428 | succeeds exactly when the page is unmapped, its bytes are in the file, and a user page and any table page are free; then a fresh frame with the file bytes and zeros; on failure no page is lost; every other page as it was |
| Loader.AddressSpace.LoadSegment | pintos/src/userprog/process.c:387-430 | succeeds exactly when all its pages are unmapped, its bytes are in the file, and there are as many free user pages as pages and free kernel pages as missing tables, and takes exactly these; then each page read back through the tables holds its part of the image; earlier mappings are intact in any case |
| Loader.ValidateMeans | pintos/src/userprog/process.c:329-369 | the checks in 32-bit arithmetic hold exactly when, without wrapping, the segment lies above page 0 and below PHYS_BASE, is not empty, is at most as large in the file as in memory and begins at the same place of its page in both |
| Loader.PlanExact | pintos/src/userprog/process.c:276-306 | the page arithmetic of load covers exactly the pages from vaddr / PGSIZE to (vaddr + memsz - 1) / PGSIZE |
| Loader.TouchesMeans | pintos/src/userprog/pagedir.c:46-82 | a page table is needed exactly for the directory entries of the pages mapped |
| Loader.AddressSpace.LoadPhdr | pintos/src/userprog/process.c:276-306 | succeeds exactly when the segment is one `ValidateMeans` describes, its bytes are in the file, its pages are unmapped and there is memory for them and their tables; then the process sees at every address of the segment the file byte or zero its header promises; every page outside the segment is untouched |
| CStrings.StringRoundTrip | kvstore/src/server/kvstore.c:103-109 | a null-terminated string and what follows it are read back from the record |
| KvStore.Hash | kvstore/src/server/kvstore.c:13-19 | the loop in wrapping 64-bit arithmetic computes the djb2 hash |
| KvStore.EntryRoundTrip | kvstore/src/server/kvstore.c:127-166 | a key and value written to an entry are read back |
| KvStore.ChainPutOk | kvstore/src/server/kvstore.c:127-166 | putting keeps a chain free of gaps and duplicates and changes one binding |
| KvStore.ChainDelOk | kvstore/src/server/kvstore.c:184-221 | moving the last entry into the gap removes exactly one key and loses no other |
| KvStore.PutAgrees | kvstore/src/server/kvstore.c:127-166 | files, chains and map agree after a put |
| KvStore.DelAgrees | kvstore/src/server/kvstore.c:184-221 | files, chains and map agree after a delete |
| KvStore.Store.constructor | kvstore/src/server/kvstore.c:23-33 | an empty store |
| KvStore.Store.Reopen | kvstore/src/server/kvstore.c:23-33 | over the files of an earlier store: the same contents |
| KvStore.Store.FindEntry | kvstore/src/server/kvstore.c:45-93 | probing the chain finds the position and value of a bound key, or the error that applies |
| KvStore.Store.Get | kvstore/src/server/kvstore.c:103-109 | answers as the map does |
| KvStore.HashIs | kvstore/src/server/kvstore.c:13-19 | the hash is 5381 followed by the characters as digits in base 33, modulo 2^64 |
| KvStore.Store.Put | kvstore/src/server/kvstore.c:127-166 | the map with the key bound and one file of its chain written, or -11, -12 or -17 exactly for an oversized key, an oversized value or a missing directory, and no change |
| KvStore.Store.Del | kvstore/src/server/kvstore.c:184-221 | the map without the key, or the error and no change |
| KvStore.Store.Clean | kvstore/src/server/kvstore.c:224-237 | the loop removes every file; nothing is left |
| KvCacheSet.EvictionRemovesVictim | kvstore/src/server/kvcacheset.c:82-105 | eviction removes exactly the first unreferenced entry, or the head if all are referenced; every other key keeps its value |
| KvCacheSet.EvictionOrder | kvstore/src/server/kvcacheset.c:86-99 | the queue afterwards: what was behind the victim, then what was ahead of it with cleared bits |
| KvCacheSet.AllMarked | kvstore/src/server/kvcacheset.c:86-99 | when all bits are set the head goes and the others lose theirs; a single entry stays |
| KvCacheSet.MarkedEntries | kvstore/src/server/kvcacheset.c:34-61 | a lookup and an overwrite set the bit of their entry; only an overwrite changes a value, and only that one |
| KvCacheSet.SecondChance | kvstore/src/server/kvcacheset.c:51-107 | an entry looked up or overwritten outlives the next eviction while another entry has a clear bit; the first of those goes |
| KvCacheSet.Newcomer | kvstore/src/server/kvcacheset.c:61-104 | a new entry has a clear bit, so it goes first when all others are set |
| KvCacheSet.RotatedStep | kvstore/src/server/kvcacheset.c:82-105 | each round of the loop moves a referenced head to the back with its bit cleared |
| KvCacheSet.CoherentPut | kvstore/src/server/kvcacheset.c:51-107 | after a put every cached pair is in the map with the key bound, whatever was evicted |
| KvCacheSet.CacheSet.constructor | kvstore/src/server/kvcacheset.c:13-28 | an empty set |
| KvCacheSet.CacheSet.Get | kvstore/src/server/kvcacheset.c:34-46 | the cached value, if any; its reference bit is set and nothing else changes |
| KvCacheSet.CacheSet.Evict | kvstore/src/server/kvcacheset.c:82-105 | the second-chance loop terminates with the entries ahead of the victim rotated to the back, bits cleared; exactly one entry goes, unless the set is empty or holds one referenced entry; index and list keep the same distinct keys |
| KvCacheSet.CacheSet.Put | kvstore/src/server/kvcacheset.c:51-107 | overwrites, or appends after evicting when the counter says full; list length <= num_entries <= elem_per_set |
| KvCacheSet.CacheSet.Del | kvstore/src/server/kvcacheset.c:111-123 | the entry is gone, the others keep their order; the counter is not decremented |
| KvCacheSet.FullButForOne | kvstore/src/server/kvcacheset.c:51-123 | a concrete history: put, put, delete, get, put; the last put evicts nothing although the counter says full |
| KvCacheSet.CacheSet.Clear | kvstore/src/server/kvcacheset.c:126-134 | the loop over the index leaves no entry; the counter is not reset |
| KvServer.Cache.Get | kvstore/src/server/kvcache.c:40-44 | the set the key is routed to answers; the other sets are untouched |
| KvServer.Cache.Put | kvstore/src/server/kvcache.c:48-54 | only the set the key is routed to changes; an entry is evicted there when its counter says full |
| KvServer.Cache.Del | kvstore/src/server/kvcache.c:58-62 | only the set the key is routed to changes |
| KvServer.SetRouting | kvstore/src/server/kvcache.c:32-35 | the set of a key is the low 32 bits of its hash modulo the number of sets |
| KvServer.PutOk | kvstore/src/server/kvserver.c:123-142 | after a write-through put every cached pair is in the store |
| KvServer.DelOk | kvstore/src/server/kvserver.c:153-165 | after a delete every cached pair is in the store |
| KvServer.FillOk | kvstore/src/server/kvserver.c:94-111 | filling the cache from the store keeps it coherent |
| KvServer.Server.Restart | kvstore/src/server/kvserver.c:19-30 | over the files of an earlier server: the same contents behind an empty cache |
| KvServer.Server.Get | kvstore/src/server/kvserver.c:87-112 | answers as the plain map does, from cache or store |
| KvServer.Server.Put | kvstore/src/server/kvserver.c:123-142 | changes and answers as the plain map does |
| KvServer.Server.Del | kvstore/src/server/kvserver.c:153-165 | changes and answers as the plain map does |
| KvServer.Server.Handle | kvstore/src/server/kvserver.c:197-225 | one request answers as the plain map does |
| KvServer.Server.Serve | kvstore/src/server/kvserver.c:197-225 | every sequential history is answered exactly as a plain map answers it |
| KvServer.MapLaws | kvstore/src/server/kvserver.c:87-165 | the plain map: a pair that was put is read back, a deleted key is not found (-13), other keys are unaffected, oversized keys (-11) and values (-12) change nothing |
| KvServer.RunAnswers | kvstore/src/server/kvserver.c:197-225 | each request of a history is answered, in order, by what the requests before it left |
| TpcLog.EntryRoundTrip | kvstore/src/server/tpclog.c:43-106 | every entry, with any null-free key and value, is decoded as it was logged |
| TpcLog.FirstFree | kvstore/src/server/tpclog.c:30-35 | the loop finds the first number without a file |
| TpcLog.Log.constructor | kvstore/src/server/tpclog.c:16-37 | an empty log |
| TpcLog.Log.Recover | kvstore/src/server/tpclog.c:16-37 | after a restart NEXTID and the logged history are recovered from the files alone |
| TpcLog.ReportedSuccess | kvstore/src/server/tpclog.c:72-81 | success is returned exactly when memory was there and write was not short; then the entry can be read back if and only if write did not return -1 |
| TpcLog.FailedWriteReported | kvstore/src/server/tpclog.c:72-81 | a concrete case: a commit record whose write fails is reported as logged and cannot be read |
| TpcLog.Log.Append | kvstore/src/server/tpclog.c:43-81 | each return code exactly when its cause occurs, success also when write returns -1; exactly file NEXTID is new and holds what was written, readable exactly when that is all of the entry; a bad type or failed open changes nothing |
| TpcLog.Log.Clear | kvstore/src/server/tpclog.c:151-168 | no file is left and numbering restarts; if a removal fails, exactly the files from there on remain, and the log is in order only if it was the first |
| TpcLog.Log.Next | kvstore/src/server/tpclog.c:133-146 | the entry at the position, which moves on; nothing at the end |
| TpcLog.Log.Replay | kvstore/src/server/tpclog.c:108-146 | iterating yields exactly what was logged since the last clear, in order |

## Left out

- Ustar.ParseHeader: printing of messages to the console is not modelled.
- Format.FormatInteger: sign characters, the `#` and grouping flags and bases below 8 are not modelled; ustar fields use none of them.
- InodeIO.ReadAt: the bounce buffer is obtained at most once, so one parameter says whether that succeeds; negative offsets are not modelled, because no caller passes one.
- InodeIO.WriteAt: the same.
- Directory.Dir.Lookup: bounce buffers for directory reads and writes are taken to be available, because otherwise a read is short and the search stops early.
- KvCacheSet.CacheSet.Put: memory is taken to be available; without it the original leaves an entry whose value is a null pointer.
- KvStore.Store.Put: file creation and writing are taken to succeed; a failing write would leave a partial entry.
- KvStore.Store.FindEntry: opening and reading an existing entry, and memory for it, are taken to be available.
- KvServer.Server.Del: a key over the limit is excluded, because the original then locks a null pointer; `Handle` and `Serve` exclude it likewise.
- KvServer.Server.Serve: sequential histories only; the original reads the store without a lock between cache lookup and cache fill.
- TpcLog.Log.Next: opening and reading an existing log file are taken to succeed.
- FileSys.FileSystem.Write: the position of an open file is not modelled; writes and reads name their offset.
- FileSys.FileSystem.InodeOpen: the list of open inodes is a map by sector; the search loop over the list is not modelled.
- FileSys.FileSystem.constructor: the contents of the free map's file are not written to the modelled device.
- FileSys.FileSystem.Create: inodes and file data are on the modelled device, the contents of the free map's file and of the root directory are not; the directory's own bytes are those of `Directory`.
- Malloc.Heap.Malloc: the descriptors' locks and the contents of blocks are not modelled; free lists are sequences, their pointer structure is `LinkedList`.
- KvCacheSet.CacheSet.Get: entries are values in a sequence and the hash index a set of keys, in place of the vendored list and hash macros; locks are left out.
- HashTable.Table.Insert: buckets are sequences; their pointer structure is `LinkedList`.
- BinaryNat.MaskIsRemainder: bitwise AND is defined on binary digits of naturals, which agrees with the machine operation on 32-bit words.
- StdSort.Sort: index arithmetic is unbounded, because an array that fits in memory has fewer than 2^31 elements; elements are values, not byte ranges.
- Loader.AddressSpace.LoadSegment: the file is a sequence of bytes whose reads are those of `InodeIO.ReadAt` with a bounce buffer available; the pages that hold page tables are counted but not identified.
- SynchRuns.After: the idle thread exists from the start, and threads that exit keep their number.
- SynchRuns.NextInv: interrupt handlers call sema_up and sema_try_down, not lock_try_acquire, which would make the interrupted thread the holder.
- The kernel pool of `palloc` also serves other callers; ownership is claimed for the pages malloc and the loader obtained.
- Zero-filling and debugging fills of pages and blocks.
- `pagedir_destroy`, `pagedir_clear_page`, accessed and dirty bits, and the parts of `load` around its PT_LOAD case.
- `list_unique`, `list_insert_ordered`, `list_max` and `list_min`, which would only add easy members.
- `calloc`, `realloc`, `hash_apply`, `hash_clear` with a destructor, `bitmap_count` and bitmap input and output.
- Priority donation, the advanced scheduler and the alarm clock, which the repository only has tests for.
- Two-phase commit, the master, sockets and message parsing of the key-value server: stubs or wrappers.
- Device drivers, interrupts, context switching, partitions and the user programs.
