# Verified core algorithms of nginx 1.12.2

Dafny models of the algorithmic cores of `src/core`, each with proofs of what its code is there
for. `dafny verify dfyconfig.toml` checks the whole project.

| Modules | Models |
|---|---|
| `Words`, `SlabRings`, `SlabOwnership`, `SlabTable`, `SlabRuns`, `SlabChunks`, `Slab` | the slab allocator: page runs under chunks with three bitmap layouts |
| `RbShape`, `RbHeap`, `RbRotate`, `RbDelete`, `RbSplice`, `RbFrame`, `RbTree` | the red-black tree with its shared sentinel, for values and for timers |
| `Counting`, `Shmtx`, `ShmtxProgress`, `Rwlock`, `ThreadPool`, `ThreadProgress`, `ThreadCalls` | the shared mutex, the reader-writer lock and the thread pool, as interleaved instructions |
| `DnsNames`, `WildcardHash`, `WildcardNames`, `PackedHash`, `NestedHash` | wildcard names compiled to nested hashes, the packed buckets of one hash, and the levels of a wildcard hash in memory |
| `RadixShape`, `RadixHeap`, `RadixTree` | the radix tree of 32-bit prefixes |
| `Lists`, `Chains`, `ChainState`, `Routing`, `OutputChain` | the output chain and its recycled buffers |
| `FileCache` | the cache of open files |
| `Calendar`, `HttpDate` | broken-down time, HTTP and cookie dates |
| `Inet`, `InetRoundTrip`, `InetCode` | the text of IPv6 addresses |
| `Palloc` | the pool allocator and the arrays that grow in it |

Pointers are indices into tables or numbers; NULL is -1 (0 where the address itself is returned).
Words have 64 bits, pages 4096 bytes; wrap-around is written out wherever the code relies on it or
could suffer from it. Code that changes state is a class whose methods follow the code statement by
statement; each method is proved against a pure description of the state (an ownership map of pages,
a tree and its in-order sequence, a map from prefixes, byte sequences, a list of live ranges), and
the promises are lemmas about that description or part of the invariant `Valid`. The three
concurrent protocols are state machines whose steps are single instructions of single threads; what
is proved holds in every interleaving of any number of them.

What the models assume of their surroundings:

- The mutex: pids are different and not zero, `sem_wait` fails only by interruption, a process dies
  only between calls or while it holds the lock, and only a dead process's pid is passed to
  `ngx_shmtx_force_unlock`.
- The reader-writer lock: fewer than 2^64 - 1 processes, and only holders unlock.
- The thread pool: one event loop; mutex and condition operations succeed except for the signal,
  whose failure is modelled.
- The output chain: buffers handed in are not handed in again while in use and do not carry the
  chain's own tag; different buffers have different storage.
- The file cache: a descriptor that is opened was not open before; fewer than 2^24 handles per entry.
- The pools: the system gives out memory that overlaps nothing in use.

## Where the code falls short of a promise

Each of these is proved, with the exact condition under which the code does keep the promise.

- `FileCache.Cache.Open`: when a file's inode is reused by a directory, an entry keeps a descriptor
  that has been closed or belongs to another entry; when a file changes and changes back between the
  two system calls of a retest, the old descriptor is leaked. In all other cases the cache is sound.
- `Palloc.TestIsRight`: with a pool size that is not a multiple of the alignment, the unsigned
  subtraction in the test for space can wrap and accept a request that does not fit.
- `Slab.Pool.FreeBlock`: the start of a chunk that holds a page's own bitmap is taken for a block and
  its busy bit is cleared, so that the bitmap can be handed out; every page of small chunks begins
  with such a chunk (`Slab.BitmapFirst`). All other addresses in the pages are told apart.
- `ThreadPool.LostForever`: a failing signal leaves the task marked active although it is not queued,
  as in `ThreadPool.SignalFails`; at rest the active tasks are exactly those (`ThreadProgress.AtRest`).
- `RadixTree.Tree.Delete`: after an insertion that ran out of memory, nodes without values may
  remain, as in `RadixTree.StrayNode`. Deleting reports success exactly for a present prefix and for
  one whose node has neither value nor children.
- `InetRoundTrip.RoundTrip`: a dotted tail of 255.255.255.255 cannot be read back, because it equals
  INADDR_NONE.
- `InetRoundTrip.AnySpelling`: "::" at the end in place of a single word, as in "1:2:3:4:5:6:7::", is
  refused, although section 2.2 of RFC 4291 allows it for one or more words; anywhere else it is read.
- `ShmtxProgress.AdmitsIff`: a blocked process can be let in, or another that waits, unless the owner
  is dead and every other process is dead or waits too, so that nobody can force the lock.
- `HttpDate.ErrorIff`: the last second before 1970 is read as -1, which is the error value; all other
  results of -1 are refusals.
- `HttpDate.FinishOk` and `HttpDate.YearZeroWrong`: day 00 is accepted, as the day before the first;
  the time is wrong exactly for January and February of the year 0.

## Model

| member | source | states |
|---|---|---|
| Slab.Pool.constructor | nginx-1.12.2/src/core/ngx_slab.c:85-162 | A new pool satisfies the invariant, has no live block, has exactly as many pages as fit between the tables and the end of the zone together with their records, starts them at the page boundary behind the records of that many pages or of one more, and `pfree` is the number of pages |
| Slab.LayoutGreatest | nginx-1.12.2/src/core/ngx_slab.c:131-157 | The code's guess at the number of pages and its correction give the greatest number that fits |
| Slab.Pool.Alloc | nginx-1.12.2/src/core/ngx_slab.c:180-408 | Keeps the invariant; gains exactly one live block, of the request's class size or its number of whole pages, and no block that was live moves or changes size; fails exactly when the class has no room and no page is free, or when no stretch of that many consecutive pages is free |
| Slab.Pool.AllocLarge | nginx-1.12.2/src/core/ngx_slab.c:188-202 | A request for whole pages fails if and only if no n consecutive pages are free anywhere in the pool |
| Slab.Pool.AllocChunk | nginx-1.12.2/src/core/ngx_slab.c:215-392 | A chunk request fails if and only if every page of its class is full and no page is free; requests and failures are counted |
| Slab.Pool.ClassOf | nginx-1.12.2/src/core/ngx_slab.c:205-213 | The class is the least power of two, at least the minimum size, that holds the request |
| Slab.Pool.Grab | nginx-1.12.2/src/core/ngx_slab.c:220-327 | In all three bitmap layouts the chunk taken was clear before, exactly its bit is set, and the page leaves its slot list exactly when it becomes full |
| Slab.Pool.Open | nginx-1.12.2/src/core/ngx_slab.c:329-392 | A fresh page is cut into chunks so that exactly the chunks under the bitmap and the one handed out are busy, and it is on its slot list |
| Slab.Pool.FreeBlock | nginx-1.12.2/src/core/ngx_slab.c:451-663 | For every address up to the last page, and outside the zone: a live block stops being live and nothing else changes its place or size; any other address changes nothing at all, if and only if it is not the aligned start of a chunk that holds a page's own bitmap; for such a chunk exactly its busy bit is lost |
| Slab.Pool.FreeChunk | nginx-1.12.2/src/core/ngx_slab.c:469-606 | The same for an offset into a page of chunks, unaligned offsets into the bitmap included |
| Slab.Pool.FindChunk | nginx-1.12.2/src/core/ngx_slab.c:469-606 | Alignment test and bit test accept exactly the live chunks and the chunks of the page's own bitmap, in all three layouts |
| Slab.BitmapFirst | nginx-1.12.2/src/core/ngx_slab.c:469-491 | Every page of small chunks begins with such a chunk, which is not live |
| Slab.Pool.FreePage | nginx-1.12.2/src/core/ngx_slab.c:608-642 | For an offset into a page that is not cut into chunks: exactly the start of a live run is freed, anything else changes nothing |
| Slab.Pool.DropChunk | nginx-1.12.2/src/core/ngx_slab.c:481-525 | A chunk handed out stops being live, `used` and `total` follow, and a page left without live chunks returns to the free runs; a chunk of the bitmap loses its bit and the pool its invariant |
| Slab.Pool.Release | nginx-1.12.2/src/core/ngx_slab.c:485-519 | Exactly one busy bit is cleared, a full page comes back to its slot list, and the test for emptiness is exact |
| Slab.Pool.FindRun | nginx-1.12.2/src/core/ngx_slab.c:671-675 | First fit finds a run if and only if some n consecutive pages are free |
| Slab.Pool.AllocPages | nginx-1.12.2/src/core/ngx_slab.c:666-718 | The first n pages of one free run become a busy run, the rest stays a free run with a right back pointer, `pfree` drops by n, and the page table stays an exact partition with no two free runs adjacent |
| Slab.Pool.FreePages | nginx-1.12.2/src/core/ngx_slab.c:722-799 | The pages become free and merge with the free runs on both sides; the page table stays an exact partition with no two free runs adjacent and `pfree` grows by n |
| Slab.Pool.AbsorbNext | nginx-1.12.2/src/core/ngx_slab.c:742-765 | The run grows to the right end of the free run that follows, if one follows |
| Slab.Pool.AbsorbPrev | nginx-1.12.2/src/core/ngx_slab.c:767-786 | The run grows to the left end of the free run before it, found through the record of that run's last page |
| Slab.Pool.Drained | nginx-1.12.2/src/core/ngx_slab.c:513-525 | Whenever every block has been freed the pool is one free run of all pages and `pfree` has its initial value |
| Slab.NothingLive | nginx-1.12.2/src/core/ngx_slab.c:742-798 | A partition without live blocks is one free run |
| Slab.SomeLive | nginx-1.12.2/src/core/ngx_slab.c:521-525 | Every page that is not free carries a live block |
| SlabRuns.NothingFits | nginx-1.12.2/src/core/ngx_slab.c:671-711 | When no member of the free list has n pages, no n consecutive pages are free |
| SlabOwnership.GiveCount | nginx-1.12.2/src/core/ngx_slab.c:728-728 | Freeing n pages adds exactly n to the number of free pages |
| SlabOwnership.TakeCount | nginx-1.12.2/src/core/ngx_slab.c:696-696 | Taking n pages removes exactly n from the number of free pages |
| SlabChunks.LiveDisjoint | nginx-1.12.2/src/core/ngx_slab.c:180-408 | Two live blocks of any layout never overlap |
| SlabChunks.LiveBounds | nginx-1.12.2/src/core/ngx_slab.c:180-408 | A live block is inside the pool, aligned to its class and clear of the bitmap in its page |
| SlabChunks.MapHalf | nginx-1.12.2/src/core/ngx_slab.c:293-321 | The masked high half of the `slab` word tells exactly whether all, or none, of a page's big chunks are busy |
| SlabChunks.EmptyByWords | nginx-1.12.2/src/core/ngx_slab.c:503-519 | The word tests of the in-page bitmap see exactly whether only the bitmap's own chunks are busy |
| SlabOwnership.OverIsDivision | nginx-1.12.2/src/core/ngx_slab.c:335-339 | The number of chunks given up to the bitmap is the integer quotient that the code computes |
| RbTree.Rbtree.constructor | nginx-1.12.2/src/core/ngx_rbtree.h:50-54 | An empty tree with a black sentinel as its root satisfies the invariant |
| RbTree.Rbtree.Insert | nginx-1.12.2/src/core/ngx_rbtree.c:27-109 | Keeps black root, no red-red edge, equal black height, parent links and order; the in-order sequence gains exactly the node, after all items of equal rank; ranks are compared through 64-bit keys, directly or by signed difference; the tree's records are the old ones and the node, and no record outside it and the sentinel changes |
| RbTree.Rbtree.FindLeaf | nginx-1.12.2/src/core/ngx_rbtree.c:119-189 | The leaf reached separates the in-order sequence: everything before it ranks at most, everything after it above the new node |
| RbTree.Rbtree.FixStep | nginx-1.12.2/src/core/ngx_rbtree.c:56-108 | One round of the rebalancing loop keeps the in-order sequence and equal black height, and moves the only red-red edge up or removes it |
| RbTree.Rbtree.Delete | nginx-1.12.2/src/core/ngx_rbtree.c:195-409 | Keeps every part of the invariant and removes exactly the node from the in-order sequence and from the tree's records, whether it has no, one or two children; no record outside the old tree and the sentinel changes |
| RbTree.InsertThenDelete | nginx-1.12.2/src/core/ngx_rbtree.c:27-409 | An insertion followed by the deletion of the same node gives the old in-order sequence back |
| RbFrame.AtClosed | nginx-1.12.2/src/core/ngx_rbtree.c:27-409 | The links of a tree lead to its own records and the sentinel only |
| RbTree.Rbtree.Unhook | nginx-1.12.2/src/core/ngx_rbtree.c:271-329 | Splicing out the node or its successor, with the sentinel's parent as scratch space, leaves the linked tree of the remaining nodes and the right parent for the replacement |
| RbTree.Rbtree.RepairStepL | nginx-1.12.2/src/core/ngx_rbtree.c:338-371 | One round of the repair on the left side keeps the in-order sequence and everything but one missing black node, which moves up or is made good |
| RbTree.Rbtree.RepairStepR | nginx-1.12.2/src/core/ngx_rbtree.c:374-405 | The mirrored round |
| RbTree.Rbtree.Repair | nginx-1.12.2/src/core/ngx_rbtree.c:338-409 | The repair loop ends with all red-black conditions and the in-order sequence unchanged |
| RbTree.Rbtree.LeftRotate | nginx-1.12.2/src/core/ngx_rbtree.c:429-457 | Exactly the six links of a left rotation change |
| RbTree.Rbtree.RightRotate | nginx-1.12.2/src/core/ngx_rbtree.c:475-502 | Exactly the six links of a right rotation change |
| RbRotate.RotateLeft | nginx-1.12.2/src/core/ngx_rbtree.c:429-457 | Those links are again a linked tree with the same in-order sequence, with parent links right for all nodes but the root |
| RbRotate.RotateRight | nginx-1.12.2/src/core/ngx_rbtree.c:475-502 | The mirrored statement |
| RbTree.Rbtree.Next | nginx-1.12.2/src/core/ngx_rbtree.c:508-544 | Returns the item that follows in the in-order sequence, or NULL after the last |
| RbTree.Rbtree.First | nginx-1.12.2/src/core/ngx_rbtree.h:84-92 | The leftmost node is the first item of the in-order sequence: no rank is lower, so for timers it has an earliest deadline |
| RbTree.LessIsRank | nginx-1.12.2/src/core/ngx_rbtree.c:153-189 | While two true deadlines lie less than half the key range apart, the signed difference of their 64-bit keys orders them as they are, across wrap-around |
| RbShape.HeightBound | nginx-1.12.2/src/core/ngx_rbtree.c:27-108 | The height is at most 2 log2(n + 1), for n items in order |
| RbShape.PlugRedBlack | nginx-1.12.2/src/core/ngx_rbtree.c:27-409 | The colour conditions of a tree are those of a subtree and of its surroundings, in both directions |
| RbDelete.SiblingExists | nginx-1.12.2/src/core/ngx_rbtree.c:341-356 | A node that is one black node short has a sibling |
| RbDelete.OuterNephewL | nginx-1.12.2/src/core/ngx_rbtree.c:357-370 | Recolouring and one rotation make up for the missing black node |
| Shmtx.StepInv | nginx-1.12.2/src/core/ngx_shmtx.c:81-236 | Every instruction of every process keeps the whole invariant |
| Shmtx.MutualExclusion | nginx-1.12.2/src/core/ngx_shmtx.c:81-236 | In every interleaving at most one process is inside, and the lock word is its pid |
| Shmtx.WaitersAccounted | nginx-1.12.2/src/core/ngx_shmtx.c:126-236 | In every interleaving `wait` (signed) plus the semaphore plus pending posts equals the number of registered waiters, and `wait` stays between minus and plus the number of processes |
| Shmtx.NoLostWakeup | nginx-1.12.2/src/core/ngx_shmtx.c:168-236 | In every interleaving, with the lock free and a process blocked, the semaphore is positive or some process is still trying, waking or posting |
| Shmtx.NeverStuck | nginx-1.12.2/src/core/ngx_shmtx.c:91-236 | From every such state some schedule of the existing processes brings a waiting one inside |
| Shmtx.WakerWakes | nginx-1.12.2/src/core/ngx_shmtx.c:204-236 | A process in the wakeup loop can always be scheduled so that a blocked one gets in, retries included |
| ShmtxProgress.TryLockAlone | nginx-1.12.2/src/core/ngx_shmtx.c:81-88 | Without interference trylock takes the lock exactly when the word is 0, and otherwise changes nothing |
| ShmtxProgress.LockAlone | nginx-1.12.2/src/core/ngx_shmtx.c:91-165 | A free lock is taken at once; otherwise the process registers as a waiter and blocks |
| ShmtxProgress.UnlockAlone | nginx-1.12.2/src/core/ngx_shmtx.c:168-236 | The owner's unlock sets the word to 0, takes one waiter off `wait` and posts for it, if there is one, and ends outside |
| ShmtxProgress.SemWaits | nginx-1.12.2/src/core/ngx_shmtx.c:140-160 | sem_wait takes one post; without one, or interrupted, the process goes on waiting |
| ShmtxProgress.UnlockStranger | nginx-1.12.2/src/core/ngx_shmtx.c:168-183 | An unlock by a process that does not own the lock changes nothing |
| ShmtxProgress.ForceAlone | nginx-1.12.2/src/core/ngx_shmtx.c:186-201 | Forcing the lock of a dead owner sets the word to 0 and wakes a waiter; if the dead process is not the owner nothing changes |
| ShmtxProgress.OwnerFrees | nginx-1.12.2/src/core/ngx_shmtx.c:168-236 | From every state a live owner, scheduled alone, brings the word to 0 and ends outside |
| ShmtxProgress.HelperFrees | nginx-1.12.2/src/core/ngx_shmtx.c:186-236 | A process that can still call force_unlock, scheduled alone, frees the lock of a dead owner |
| ShmtxProgress.LetIn | nginx-1.12.2/src/core/ngx_shmtx.c:81-236 | Whether the lock is free, held or left by a dead owner: whenever a process is blocked, some schedule lets a waiting process in, unless the owner is dead and nobody is left to force the lock |
| ShmtxProgress.StaysAbandoned | nginx-1.12.2/src/core/ngx_shmtx.c:81-236 | In that case the lock stays taken in every continuation and nobody gets in |
| ShmtxProgress.AdmitsIff | nginx-1.12.2/src/core/ngx_shmtx.c:81-236 | Over every interleaving: a schedule that lets a waiting process in exists if and only if the lock is not abandoned in that way |
| Rwlock.StepInv | nginx-1.12.2/src/core/ngx_rwlock.c:19-109 | Every read, compare-and-set and store of every process keeps the invariant, with 64-bit wrap-around written out |
| Rwlock.Exclusion | nginx-1.12.2/src/core/ngx_rwlock.c:19-109 | In every interleaving the word is WLOCK exactly while one writer and no reader holds the lock, and otherwise it is the number of readers |
| Rwlock.NoConflict | nginx-1.12.2/src/core/ngx_rwlock.c:19-109 | A writer inside excludes every other holder |
| Rwlock.Acquires | nginx-1.12.2/src/core/ngx_rwlock.c:19-85 | A call that nobody interferes with gets the lock in three instructions exactly when the other holders allow it, for writing and for reading, and goes on trying otherwise |
| Rwlock.Releases | nginx-1.12.2/src/core/ngx_rwlock.c:89-109 | An unlock that nobody interferes with ends in three instructions and gives back exactly the one hold, of its own kind |
| ThreadPool.StepInv | nginx-1.12.2/src/core/ngx_thread_pool.c:230-394 | Every instruction of the event loop and of every worker keeps the whole invariant |
| ThreadPool.OnePlace | nginx-1.12.2/src/core/ngx_thread_pool.c:230-394 | In every interleaving each active task is in exactly one of: the poster's hands, the queue, a worker, the done list, the completing batch, or lost by a failed signal; no other task is anywhere |
| ThreadPool.FifoOnce | nginx-1.12.2/src/core/ngx_thread_pool.c:262-350 | In every interleaving tasks are dequeued in posting order and each handler runs once per post; a task that is not active has run and completed as often as it was posted |
| ThreadPool.WaitingTally | nginx-1.12.2/src/core/ngx_thread_pool.c:243-330 | In every interleaving `waiting` is the queue length minus the workers past their decrement that have no task yet |
| ThreadPool.NoSleepingPool | nginx-1.12.2/src/core/ngx_thread_pool.c:257-321 | A non-empty queue never coexists with all workers blocked and unsignalled |
| ThreadPool.WorkConserving | nginx-1.12.2/src/core/ngx_thread_pool.c:257-321 | While any worker sleeps there are at least as many workers on their way to the queue as tasks in it |
| ThreadProgress.StepUses | nginx-1.12.2/src/core/ngx_thread_pool.c:230-394 | Every instruction other than a new post or a spurious wakeup changes nothing or uses up some of a finite amount of work, so that no schedule goes on for ever without new posts |
| ThreadProgress.SomeMoves | nginx-1.12.2/src/core/ngx_thread_pool.c:230-394 | No deadlock: unless all workers wait and the event loop has nothing to do, some thread can go on |
| ThreadProgress.AtRest | nginx-1.12.2/src/core/ngx_thread_pool.c:230-394 | A pool at rest has an empty queue and done list, free locks and `waiting` at minus the number of workers; every task has run and completed as often as it was posted, and only tasks lost by a failed signal are active |
| ThreadProgress.PostsComplete | nginx-1.12.2/src/core/ngx_thread_pool.c:230-394 | From every state of every interleaving the threads by themselves, without spurious wakeups, can bring the pool to rest with everything posted completed |
| ThreadPool.LostForever | nginx-1.12.2/src/core/ngx_thread_pool.c:252-260 | A task whose signal failed stays active for ever, so that every later post of it is refused |
| ThreadPool.SignalFails | nginx-1.12.2/src/core/ngx_thread_pool.c:230-260 | Such a task: posted to a new pool, with a signal that fails, it is active, lost and not queued |
| ThreadCalls.PostAlone | nginx-1.12.2/src/core/ngx_thread_pool.c:230-274 | A post that finds the mutex free appends the task to the queue, marks it active and wakes a waiting worker if and only if the task is not active and `waiting` is below the limit; otherwise nothing changes; with a failing signal the task is lost |
| ThreadCalls.AcceptedIff | nginx-1.12.2/src/core/ngx_thread_pool.c:230-274 | From every state of every interleaving with the event loop between calls: after the post, log and queue are the old ones followed by the task if and only if it was not active and the queue not full, else log, queue and active tasks are the old ones |
| ThreadCalls.ServeAlone | nginx-1.12.2/src/core/ngx_thread_pool.c:302-357 | A worker that finds a task queued takes the first one, runs its handler once and puts it last on the done list, and the event loop is notified |
| ThreadCalls.SleepAlone | nginx-1.12.2/src/core/ngx_thread_pool.c:302-321 | A worker that finds the queue empty waits and gives the mutex up |
| ThreadCalls.WokenAlone | nginx-1.12.2/src/core/ngx_thread_pool.c:314-357 | A worker that was woken goes on to serve the first task |
| ThreadCalls.HandleAlone | nginx-1.12.2/src/core/ngx_thread_pool.c:364-382 | The handler takes over the whole done list in its order |
| ThreadCalls.CompleteOne | nginx-1.12.2/src/core/ngx_thread_pool.c:384-394 | The tasks of the list are completed in order, each ceasing to be active first |
| WildcardHash.FindHead | nginx-1.12.2/src/core/ngx_hash.c:52-143 | The scan from the last dot and the two tag bits compute the lookup on label lists, fallbacks included |
| WildcardHash.WildcardInit | nginx-1.12.2/src/core/ngx_hash.c:464-606 | For every list of sorted, lower-case keys with different suffixes, the nested tagged hashes give to every list of labels the value of the matching key with the most labels, and nothing exactly when none matches |
| WildcardHash.Gather | nginx-1.12.2/src/core/ngx_hash.c:516-570 | The prefix test ends a group exactly at the first key with another first label, and the rests are collected without loss |
| WildcardNames.ReverseLabels | nginx-1.12.2/src/core/ngx_hash.c:882-914 | The copying loop reverses the labels of any name |
| WildcardNames.PatternKey | nginx-1.12.2/src/core/ngx_hash.c:872-914 | The key of a pattern has the labels of its suffix, outermost first, and a final dot exactly for a star |
| WildcardNames.LabelSuffix | nginx-1.12.2/src/core/ngx_hash.c:52-77 | Labels of x start those of a name exactly when the name is x or ends with a dot and x |
| WildcardNames.Compile | nginx-1.12.2/src/core/ngx_hash.c:464-606 | For any conflict-free list of "*.suffix" and ".suffix" patterns the compiled table gives every string name the value of the longest pattern that covers it, or nothing when none does |
| WildcardNames.Lookup | nginx-1.12.2/src/core/ngx_hash.c:52-143 | A lookup in such a table returns the value of the longest covering pattern, or nothing when none covers the name |
| DnsNames.SameLabelBetween | nginx-1.12.2/src/core/ngx_string.c:846-874 | In the DNS order, between two keys with the same first label there are only keys with that label |
| PackedHash.Measure | nginx-1.12.2/src/core/ngx_hash.c:334-345 | The 16-bit counters hold the exact room of every bucket as long as no bucket's total overflows them |
| PackedHash.Lay | nginx-1.12.2/src/core/ngx_hash.c:347-393 | Buckets start on cache lines, one after the other, each with room for its records and the null value |
| PackedHash.Place | nginx-1.12.2/src/core/ngx_hash.c:395-413 | Every record stands in its own bucket behind the earlier ones and overwrites no other bucket |
| PackedHash.BytesInside | nginx-1.12.2/src/core/ngx_hash.c:395-428 | The bytes of every record, and of the null value, lie inside the room of its bucket and end before the next record begins |
| PackedHash.BytesApart | nginx-1.12.2/src/core/ngx_hash.c:395-428 | No two records, in one bucket or in two, share a byte |
| PackedHash.SlotIsRemainder | nginx-1.12.2/src/core/ngx_hash.c:343-343 | The bucket of a name is the remainder of its hash |
| PackedHash.Inside | nginx-1.12.2/src/core/ngx_hash.c:334-413 | What is used of a bucket, and its terminator, stay inside the room reserved for it |
| PackedHash.Stride | nginx-1.12.2/src/core/ngx_hash.c:12-49 | From an aligned record the aligned stride of the lookup lands exactly on the next record |
| PackedHash.HashInit | nginx-1.12.2/src/core/ngx_hash.c:332-428 | The finished table holds every name in its bucket, terminated by a null value |
| PackedHash.HashFind | nginx-1.12.2/src/core/ngx_hash.c:12-49 | The strided search returns what a search of the bucket's list of names returns |
| PackedHash.FoundIff | nginx-1.12.2/src/core/ngx_hash.c:12-49 | Looked up with its hash, a key is found if and only if it was inserted, and with its own value |
| NestedHash.FindLabel | nginx-1.12.2/src/core/ngx_hash.c:82-82 | On a level in memory the packed lookup finds what the level's list has at the label, pointer tag included |
| NestedHash.FindWcHead | nginx-1.12.2/src/core/ngx_hash.c:52-143 | The lookup over levels in memory, by hashes of labels and the two low bits of pointers, computes the lookup on label lists |
| NestedHash.Pack | nginx-1.12.2/src/core/ngx_hash.c:464-606 | The levels that ngx_hash_init builds for a compiled table, with numbers of buckets that fit, represent it |
| NestedHash.LookupNested | nginx-1.12.2/src/core/ngx_hash.c:52-143 | A lookup in those levels returns the value of the longest covering pattern, or nothing when none covers the name |
| RadixTree.Tree.constructor | nginx-1.12.2/src/core/ngx_radix_tree.c:21-54 | A new tree maps every prefix to nothing, is pruned and has only its root |
| RadixTree.Tree.Insert | nginx-1.12.2/src/core/ngx_radix_tree.c:234-314 | Busy exactly on a present prefix; otherwise the map gains exactly that entry, the tree stays pruned, and nodes are added on the way to the prefix only; running out of memory leaves the map as it was |
| RadixTree.Tree.Delete | nginx-1.12.2/src/core/ngx_radix_tree.c:330-406 | The map loses exactly that entry; it succeeds if and only if the prefix is present or its node has neither value nor children, so in a pruned tree exactly when it is present, and then the tree is pruned again; every node is in the tree or on the free list |
| RadixTree.StrayNode | nginx-1.12.2/src/core/ngx_radix_tree.c:234-406 | With room for two nodes, an insertion under two bits fails, and deleting the absent prefix of one bit then reports success |
| RadixTree.Tree.Find | nginx-1.12.2/src/core/ngx_radix_tree.c:413-440 | Returns the value of the longest stored prefix of the key, or nothing exactly when none is stored |
| RadixTree.Tree.Alloc | nginx-1.12.2/src/core/ngx_radix_tree.c:668-705 | A node that is in use is never handed out again; a free node is reused before memory is taken, and NULL means that there is neither |
| RadixShape.DeepestIsLongest | nginx-1.12.2/src/core/ngx_radix_tree.c:424-437 | The last value met on the way down belongs to the longest stored prefix |
| RadixShape.PlugChanges | nginx-1.12.2/src/core/ngx_radix_tree.c:234-406 | Replacing a subtree changes the map of the whole tree exactly under its path |
| Calendar.GmtimeOk | nginx-1.12.2/src/core/ngx_times.c:375-465 | For every t the result is a valid Gregorian date, weekday and time of day that is t seconds after Thursday, January 1, 1970, counted by year and month lengths alone |
| Calendar.GuessError | nginx-1.12.2/src/core/ngx_times.c:398-419 | The first guess of the year is at most two days late, so that the negative-day branch repairs it |
| Calendar.GaussCounts | nginx-1.12.2/src/core/ngx_parse_time.c:244-263 | Gauss' formula counts the days that the lengths of years and months give |
| Calendar.TimeUnique | nginx-1.12.2/src/core/ngx_times.c:375-465 | A moment has only one broken-down time |
| HttpDate.ParseHttpTime | nginx-1.12.2/src/core/ngx_parse_time.c:14-276 | The scanner, for all three formats, computes the specified function of the text, with -1 for errors, and every character it reads is inside the text |
| HttpDate.FinishOk | nginx-1.12.2/src/core/ngx_parse_time.c:219-274 | A date whose day or time of day is too large for the calendar is refused; for all others the seconds since 1970, also before 1970, are exact if and only if the date is not in January or February of the year 0 |
| HttpDate.ErrorIff | nginx-1.12.2/src/core/ngx_parse_time.c:14-276 | For every text: the result is -1 if and only if the text cannot be read, its date is too large, or the moment is the last second before 1970 |
| HttpDate.LastSecondCollides | nginx-1.12.2/src/core/ngx_parse_time.c:219-274 | 31 Dec 1969 23:59:59 is a correct date whose time is the error value |
| HttpDate.YearZeroWrong | nginx-1.12.2/src/core/ngx_parse_time.c:235-263 | All dates in January and February of the year 0 come out wrong |
| HttpDate.YearZeroStamp | nginx-1.12.2/src/core/ngx_parse_time.c:235-263 | They come out 10368 seconds late, because the year wraps around below 0 |
| HttpDate.HttpRoundTrip | nginx-1.12.2/src/core/ngx_times.c:319-335 | Reading a printed HTTP date gives the moment it was printed for |
| HttpDate.CookieRoundTrip | nginx-1.12.2/src/core/ngx_times.c:343-368 | A cookie date reads back through 2037 and is refused after it |
| HttpDate.AscRoundTrip | nginx-1.12.2/src/core/ngx_parse_time.c:36-276 | A date in the format of asctime, with a day of one digit, padded or not, or of two, reads back |
| HttpDate.WeekdayRoundTrip | nginx-1.12.2/src/core/ngx_parse_time.c:36-150 | With any weekday word before it, short or long, the first format reads back for every year and the second, with its two digits, for every year from 1970 to 2069, with any number of spaces before the day and with or without a zone behind it |
| HttpDate.TimeRoundTrip | nginx-1.12.2/src/core/ngx_times.c:319-465 | For every t up to the end of 9999, parsing the printed date returns t, in all formats |
| HttpDate.DateRoundTrip | nginx-1.12.2/src/core/ngx_parse_time.c:14-276 | For every date from 1970 to 9999, breaking down the parsed time gives the date back, and its weekday if that was right |
| OutputChain.Context.Output | nginx-1.12.2/src/core/ngx_output_chain.c:45-224 | Over any calls and any in-order consumer: bytes and the marks of special buffers, sent, waiting and still in `ctx->in`, make up what was supplied, in order; at most `bufs.num` buffers are allocated and none is lost; only what must be copied is copied; the result is AGAIN while input stays behind, which is only when the next buffer has to be copied and all `bufs.num` buffers are in use, and else what the output filter returned; the short path hands over the incoming buffer itself |
| OutputChain.Promise | nginx-1.12.2/src/core/ngx_output_chain.c:45-280 | Written out: where buffers must be temporary no read-only one is handed over; where they need not be none is allocated; every supplied buffer that carries bytes or a mark and needs no copy is itself handed over, in order; of supplied buffers nothing but the position ever changes |
| OutputChain.Context.PassOn | nginx-1.12.2/src/core/ngx_output_chain.c:52-76 | The short path hands over exactly the incoming buffer, and its result is the output filter's |
| Routing.MoveTracked | nginx-1.12.2/src/core/ngx_output_chain.c:228-280 | Handing over a buffer that needs no copy keeps the order of those that need none |
| Routing.CopyTracked | nginx-1.12.2/src/core/ngx_output_chain.c:501-552 | Copying one that must be copied into a buffer of the context keeps it too |
| OutputChain.Context.Fill | nginx-1.12.2/src/core/ngx_output_chain.c:98-188 | What the output chain and `ctx->in` hold is what was there; the loop ends only when the input is used up or its next buffer has to be copied and there is no buffer for it; every round makes progress |
| OutputChain.Context.CopyBuf | nginx-1.12.2/src/core/ngx_output_chain.c:501-552 | Copying moves bytes from the input to the output without loss, and either all of the input buffer or as much as fits |
| OutputChain.Context.GetBuf | nginx-1.12.2/src/core/ngx_output_chain.c:425-498 | A new buffer is made only below the limit; its room is `bufs.size`, or just what a last buffer needs that is smaller or, as the only buffer, up to a quarter larger |
| OutputChain.Context.Emit | nginx-1.12.2/src/core/ngx_output_chain.c:199-222 | The consumer gets exactly the output chain; what it has sent is recycled, what it has not stays untouched |
| OutputChain.Context.UpdateSent | nginx-1.12.2/src/core/ngx_buf.c:270-313 | Exactly the given number of bytes, or all there are, is taken off the front of the consumer's chain, in order, with all the special buffers up to the next byte |
| OutputChain.Context.UpdateChains | nginx-1.12.2/src/core/ngx_buf.c:183-222 | Sent buffers leave the busy chain, ours for the free chain; afterwards its head has unsent bytes; no unsent byte changes |
| ChainState.Recycle | nginx-1.12.2/src/core/ngx_buf.c:202-220 | A buffer is freed for refilling only when the consumer holds none of its bytes |
| FileCache.Cache.Open | nginx-1.12.2/src/core/ngx_open_file_cache.c:143-486 | For every state and outcome: the cache stays sound if and only if the file system reports no directory under a kept descriptor and no already open file under a new one; then tree, queue and `current` agree, `current` is at most `max`, handles are counted, and a handle's descriptor is open and stable. A fresh entry answers by itself, otherwise the file system does; a fatal failure takes the name out; else its entry becomes the most recent one and no other leaves its place, except from the end of the queue when a new entry finds the cache full |
| FileCache.OpenTwice | nginx-1.12.2/src/core/ngx_open_file_cache.c:143-486 | Two calls for a name not yet in the cache, nothing between them: the second answers with the first one's descriptor or error if and only if less than `valid` seconds have passed and the unique number asked for is 0 or the same; otherwise with what the file system says then |
| FileCache.Cache.Release | nginx-1.12.2/src/core/ngx_open_file_cache.c:1017-1028 | Exactly one handle fewer; no entry with handles is freed and no other handle loses its descriptor; then at most two idle entries expire |
| FileCache.Cache.CloseCached | nginx-1.12.2/src/core/ngx_open_file_cache.c:1031-1074 | The entry is freed and its descriptor closed exactly when it is detached and its last handle goes, or only closed when it was used too rarely; an entry in the tree becomes the most recent one |
| FileCache.Cache.Expire | nginx-1.12.2/src/core/ngx_open_file_cache.c:1094-1142 | Exactly the least recently used entries go, at most three if forced and two if not, all idle but a forced first one; it stops early only at an entry that is not idle; handles stay |
| FileCache.Cache.Retest | nginx-1.12.2/src/core/ngx_open_file_cache.c:275-349 | An entry examined again is updated, replaced or detached so that no descriptor is leaked, closed twice or shared, exactly for the plausible outcomes; it stays in place unless the file has changed and handles of it are out |
| FileCache.Cache.TakeOut | nginx-1.12.2/src/core/ngx_open_file_cache.c:453-474 | An entry leaves the tree and is freed at once unless it has handles |
| FileCache.Cache.Create | nginx-1.12.2/src/core/ngx_open_file_cache.c:360-424 | A new entry is added within the limit, under a name that is not in the tree |
| FileCache.Dangles | nginx-1.12.2/src/core/ngx_open_file_cache.c:295-340 | The failure when a kept descriptor is reported to be a directory: an entry is left with a descriptor it does not own |
| FileCache.Leaks | nginx-1.12.2/src/core/ngx_open_file_cache.c:303-317 | The failure when a file opened anew is the one already open: a descriptor stays open that no entry holds |
| InetCode.Inet6Addr | nginx-1.12.2/src/core/ngx_inet.c:62-175 | The scanner with its in-place shift stays inside the 16 bytes and computes the specified reading of the text |
| InetCode.InetAddr | nginx-1.12.2/src/core/ngx_inet.c:17-55 | The dotted-quad scanner computes the specified reading, the error value included |
| InetCode.Spread | nginx-1.12.2/src/core/ngx_inet.c:158-167 | The bytes after "::" move to the end and zeroes fill the gap |
| InetCode.FindRun | nginx-1.12.2/src/core/ngx_inet.c:303-331 | The run chosen is the first of the longest runs of zero words, if that has at least two words |
| InetCode.BestRunUnique | nginx-1.12.2/src/core/ngx_inet.c:303-331 | That determines the run, and with it the text |
| InetCode.Inet6Ntop | nginx-1.12.2/src/core/ngx_inet.c:293-367 | The text has the first longest zero run compressed; parsing it returns the address, and is refused exactly for ::255.255.255.255 and ::ffff:255.255.255.255 |
| InetRoundTrip.RoundTrip | nginx-1.12.2/src/core/ngx_inet.c:62-175 | For every 16-byte address and every zero run that may be compressed, parsing the text returns the bytes, except exactly a dotted tail of 255.255.255.255, which is refused |
| InetRoundTrip.AnySpelling | nginx-1.12.2/src/core/ngx_inet.c:62-175 | Every spelling of every address, with one to four digits of either case per word, a gap of any length or none and a dotted tail or none, is read as that address; refused are exactly a dotted 255.255.255.255 and a "::" at the end that stands for one word |
| InetRoundTrip.QuadIff | nginx-1.12.2/src/core/ngx_inet.c:17-55 | For every text: four parts between dots, each the digits of a number up to 255 with any leading zeros, or nothing, are read as those numbers, except 255.255.255.255; every other text is refused |
| InetRoundTrip.QuadRead | nginx-1.12.2/src/core/ngx_inet.c:17-55 | Every dotted quad reads back, except 255.255.255.255, which is the error value |
| Palloc.Pool.constructor | nginx-1.12.2/src/core/ngx_palloc.c:18-43 | A new pool has no allocations and one block, free behind the pool header; the limit for small allocations is that room, but at most one byte less than a page |
| Palloc.Pool.PallocSmall | nginx-1.12.2/src/core/ngx_palloc.c:148-174 | The allocation, aligned if asked, overlaps no other and lies in the used part of a block behind its header; it is in the first block from `current` on that has room, or in a new one when none has; it fails only for lack of memory |
| Palloc.Pool.PallocBlock | nginx-1.12.2/src/core/ngx_palloc.c:177-210 | A new block joins without overlapping anything, with the allocation at its beginning |
| Palloc.Pool.BumpFailed | nginx-1.12.2/src/core/ngx_palloc.c:200-204 | Every block tried but the last counts one more failure, and `current` moves behind the last of them that had failed more than four times |
| Palloc.Pool.Palloc | nginx-1.12.2/src/core/ngx_palloc.c:122-132 | A small allocation is aligned and in the first block with room or a new one, a large one is the memory got from the system; it overlaps no other and the others stay |
| Palloc.Pool.Reset | nginx-1.12.2/src/core/ngx_palloc.c:99-119 | Every block restarts behind a whole pool header and counts no failures, nothing is allocated, and the invariant is kept |
| Palloc.TestIsRight | nginx-1.12.2/src/core/ngx_palloc.c:155-167 | The unsigned test for space is right at every position of a block if and only if the block ends on an aligned address |
| Palloc.SpaceBeyond | nginx-1.12.2/src/core/ngx_palloc.c:155-167 | Otherwise an aligned position past the end passes the test for every size |
| Palloc.Pool.PushN | nginx-1.12.2/src/core/ngx_array.c:70-178 | Elements pushed earlier keep their bytes through growth in place and relocation, the array's range stays an allocation of its own, and no other allocation moves or changes a byte; growth is in place exactly when the array ends at the top of the first block and fits there, otherwise the capacity is twice the larger of n and the old one |
| Palloc.Pool.GrowInPlace | nginx-1.12.2/src/core/ngx_array.c:83-96 | Only the last allocation of the first block grows, into free room |
| Palloc.Pool.Destroy | nginx-1.12.2/src/core/ngx_array.c:42-60 | Exactly those of the array's two allocations that are at the top of the first block are given back, and no other is disturbed |
| Palloc.SpanIsProduct | nginx-1.12.2/src/core/ngx_array.c:79-79 | The bytes of n elements are their number times their size |

## Left out

- Slab.Pool.FreeBlock: addresses past the last page but before the end of the zone are not passed to it; for them the code reads a page record behind the table, from memory that the model does not have.
- Slab: `min_shift` is fixed at 3, as `ngx_cycle.c` sets it; junk filling, log messages and the mutex around the calls.
- RbTree.Rbtree.Delete: the contract does not mention that the record of the deleted node is cleared, which the code does for debugging.
- Shmtx, Rwlock: spin counts, `ngx_cpu_pause` and yielding have no effect on what is proved; the file-lock variant of the mutex.
- ThreadPool: several pools sharing one done list, shutdown, and failures of the mutex.
- WildcardNames.Compile: patterns are taken in the order of their keys, since the sorting itself is done by the C library; the levels are built by `NestedHash.Pack` after all lists are known, not between them. Trailing wildcards ("www.example.*") and the exact-name hash of `ngx_hash_add_key`.
- PackedHash.HashInit: the search for the number of buckets; a record is one cell at its address, and `PackedHash.BytesApart` says that the bytes it stands for overlap no other record's.
- OutputChain.Context.Output: buffers in files, sendfile, AIO and directio; the flush and last-buffer flags of buffers that also have bytes; failing allocations.
- FileCache.Cache.Lookup: the search by hash and name in the tree is a search of the table; `RbTree` treats the tree. Vnode events, symlink checks, descriptors without a cache and the teardown of the whole cache.
- RadixTree: the 128-bit variant, preallocation and the deletion of the empty prefix.
- Palloc: `ngx_pfree`, cleanup handlers and the reuse of freed large slots.
- Calendar: the cached time strings and their slots.
- Everything else in `src/core` (connections, cycles, configuration, resolver, logging, regular expressions, strings and escapes, MD5 and SHA-1): system calls and plumbing, or members that would be easy.
