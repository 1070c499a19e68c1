# Kevlar kernel: verified models

Dafny models of the parts of the Kevlar kernel and its tools whose correctness rests on an invariant
over whole runs, and proofs of what those parts promise.  `dafny verify dfyconfig.toml` checks
everything.

| file | models |
|---|---|
| `lockdep.dfy`, `lock_order.dfy` | the per-CPU held-lock table, and the acquire, spin, drop protocol of every spin lock under nested interrupts |
| `powers.dfy`, `page_ownership.dfy`, `page_safety.dfy`, `page_conservation.dfy`, `stack_registry.dfy` | physical pages moving between zones, caches, pools, kernel stacks, threads and clients, in every interleaving of lock-atomic steps with arbitrary hint counters |
| `buddy_blocks.dfy`, `free_lists.dfy`, `buddy.dfy` | the buddy allocator of one zone, down to its intrusive free lists and its allocation bitmap |
| `page_allocator.dfy` | the page allocator as one CPU runs it |
| `refcount.dfy`, `cow_lifetime.dfy` | copy-on-write reference counts, with load and update as separate steps |
| `ring_buffer.dfy`, `pipe.dfy` | the wrap-around ring and the pipe above it |
| `timer.dfy`, `sleep_protocol.dfy` | the timer list and the protocol between sleepers, timer passes on any CPU, late resumes, signals and exits |
| `splitmix.dfy` | the random word generator and the buffer fill |
| `spawn_fallback.dfy`, `spawn_paths.dfy` | the posix_spawn fallback child, the translation of its action list, and the kernel's own path |
| `mem.dfy` | `memcpy` and `memmove` without string instructions |
| `newc.dfy`, `newc_archive.dfy` | the two cpio writers and a reader of the format |
| `flight_recorder.dfy` | the event rings and the sorted crash dump |
| `common.dfy` | what several models share |

State machines are written as an `Enabled` predicate and a `Next` function; a run is a sequence of
states in which each is the `Next` of the one before.  Code that works in place is a class or a method
over arrays, proved against a function or a stated meaning.

Things the proofs found to be different from what a comment or a caller would expect, each with an
exact condition:

- `lock_no_irq` and `lock_preempt` guards pop their table entry and unlock with interrupts on.  Deadlocks are
  excluded exactly when no interrupt handler takes a lock that is dropped this way, or one of a lower rank than
  such a lock (`LockOrder.DeadlockFreeIffDisciplined`).  The timer interrupt breaks this rule with the REAL_TIMERS
  list, which it and `getitimer` both take with `lock_no_irq` (kernel/syscalls/setitimer.rs:45 and :100).
- `refill_page_cache` ignores the push results, so a refill loses pages exactly when the cache filled up
  meanwhile, and two concurrent refills can get there (`PageSafety.RefillKeepsAllPagesIffTheyFit`,
  `PageSafety.RefillCanLosePages`).
- A sleep interrupted by a signal leaves its timer entry behind, and that entry can end a later sleep
  early, although `_sleep_ms` is documented as sleeping at least that long (`SleepProtocol.EarlyEndIffLeftover`).
- The tick computation of a sleep wraps for huge requests (`Timers.TicksRoundUp`).
- `page_ref_inc_huge` does not look for kernel-image marks (`RefCount.HugeIncKeepsMarksIffNoneInside`), and the
  "free me" reports of a page are right in every run exactly when the page is in the tracked range; any other page
  can be freed twice (`CowLifetime.ReportsExactIffTracked`, `CowLifetime.UntrackedPageFreedTwice`).  The 65535th
  reference turns a counter into the kernel-image mark and the page leaks (`CowLifetime.ReportedOnceIffWithinLimit`).
- The status pipe of the spawn fallback never changes which files a child gets, but can change a
  close-on-exec flag (`SpawnFallback.FlagsAgreeIff`, with the input `SpawnFallback.PipeCanChangeAFlag`).
- The kernel's spawn call refuses some actions the fallback child accepts, among them duplicating a
  close-on-exec descriptor, and keeps close-on-exec opens that the child's `execve` closes
  (`SpawnPaths.PathsAgreeIff`); the status pipe alone can make that difference (`SpawnPaths.PipeMakesTheDifference`).
- A symbolic link whose target is not ASCII is cut short on reading, and a name that is not ASCII leaves a stray
  header in the archive (`NewcArchive.ArchiveRoundTripIff`, `NewcArchive.SkippedCleanlyIff`).

## Model

| member | source | states |
|---|---|---|
| Lockdep.ReleaseRemovesExactlyOne | platform/lockdep.rs:178-192 | release removes exactly the topmost entry with the address, keeps the order of the rest, and leaves a table without that address alone |
| Lockdep.AcceptedPushKeepsOrder | platform/lockdep.rs:134-156 | a push that passes the rank test keeps the table strictly increasing |
| Lockdep.RefusesExactlyViolations | platform/lockdep.rs:134-148 | the rank test refuses exactly the locks that do not rank above everything held |
| Lockdep.ReleaseKeepsOrder | platform/lockdep.rs:178-192 | an out-of-order release keeps the table strictly increasing |
| Lockdep.DepthAtMostEleven | platform/lockdep.rs:16-54 | a strictly increasing table over the eleven rank constants is at most 11 deep, below the 16 slots |
| Lockdep.EveryHistoryStaysOrdered | platform/lockdep.rs:113-194 | in every panic-free history the table is increasing, at most 11 deep, and every accepted acquire is really recorded |
| Lockdep.CpuLockState.OnAcquire | platform/lockdep.rs:113-159 | panics exactly on a rank violation of an enabled, ranked, non-reentrant call; otherwise the entry is pushed |
| Lockdep.CpuLockState.OnRelease | platform/lockdep.rs:162-194 | the array ends as the functional release of the old table, vacated slot cleared |
| Lockdep.CpuLockState.ShiftDown | platform/lockdep.rs:184-189 | the shift-down loop removes one index and nothing else |
| LockOrder.StepKeepsInv | platform/spinlock.rs:55-114 | every step of every CPU, interrupts between the pop and the unlock of a no-irq or preempt guard included, keeps the link between held tables, interrupt frames and lock ownership |
| LockOrder.EveryRunKeepsInv | platform/spinlock.rs:55-114 | that link holds in every state of every panic-free run |
| LockOrder.RankClimbs | platform/spinlock.rs:55-114 | along a wait-for edge the rank of the lock waited for strictly climbs, unless the owner was interrupted while dropping an unmasked lock, and then it waits for a handler lock |
| LockOrder.NoWaitCycle | platform/spinlock.rs:55-114 | in a disciplined system no chain of waiting CPUs closes, self-waits included |
| LockOrder.DeadlockFree | platform/spinlock.rs:206-238 | in every reachable state of a disciplined system each spinning CPU leads, over different CPUs, to one that can take its lock now or does not spin, and no wait chain is a cycle |
| LockOrder.InterruptThenReturn | platform/spinlock.rs:230-238 | an interrupt and the return of its handler leave the whole state as it was |
| LockOrder.InterruptsArrive | platform/spinlock.rs:206-238 | an interrupt can arrive on every CPU of every reachable state except inside the drop of a masking guard |
| LockOrder.AcquireGets | platform/spinlock.rs:55-114 | a running CPU may take any free lock ranking above all it holds, and then owns just that lock in addition |
| LockOrder.DropReleases | platform/spinlock.rs:206-220 | a running CPU may drop any lock it took at its level, in any order, and loses just that lock |
| LockOrder.EverySpinCanEnd | platform/spinlock.rs:55-114 | every run of a disciplined system in which a CPU spins can be continued, without a new acquire or interrupt, until that CPU owns its lock |
| LockOrder.TableMatchesOwnership | platform/spinlock.rs:206-220 | for all guard kinds: a CPU owns a lock exactly when its table holds the entry and the spin is over, or some level of it is inside that lock's drop |
| LockOrder.SameLockDeadlocks | platform/spinlock.rs:230-238 | a handler lock that is also dropped with interrupts on: a run ends with a CPU spinning on a lock it owns itself |
| LockOrder.LowerHandlerLockDeadlocks | platform/spinlock.rs:263-271 | a handler lock of a lower rank than a lock dropped with interrupts on: a run ends with two CPUs waiting for each other |
| LockOrder.DeadlockFreeIffDisciplined | platform/spinlock.rs:206-271 | with two CPUs or more no run has a wait cycle exactly when every lock dropped with interrupts on differs from, and does not outrank, every handler lock |
| Powers.OrderIsLeast | platform/page_allocator.rs:153-158 | the order chosen for a request covers it and the next smaller one does not |
| StackRegistry.RegisterEffect | platform/stack_cache.rs:22-35 | registering adds only pages of that stack, all of them when enough slots are free |
| StackRegistry.UnregisterEffect | platform/stack_cache.rs:37-49 | unregistering removes exactly that stack's pages |
| StackRegistry.EntriesAndFreeSlots | platform/stack_cache.rs:22-35 | entries and free slots always add up to the table |
| StackRegistry.Registry.Register | platform/stack_cache.rs:22-35 | the slot-search loops end in the functional registration |
| StackRegistry.Registry.Unregister | platform/stack_cache.rs:37-49 | the slot-search loops end in the functional removal |
| StackRegistry.Registry.IsStackPage | platform/stack_cache.rs:53-57 | the scan answers membership in the registry |
| PageOwnership.StepTraces | platform/page_allocator.rs:211-303 | a page found at a place after a step was, before it, at that place's origin: nothing appears from nowhere |
| PageOwnership.StepSeparates | platform/page_allocator.rs:601-715 | two places with the same origin are the same place: nothing is duplicated |
| PageOwnership.StepKeepsSinglePlace | platform/page_allocator.rs:938-1089 | each of the 38 lock-atomic steps keeps every page in at most one place, whatever the hints read |
| PageSafety.EveryRunIsSafe | platform/page_allocator.rs:776-863 | single ownership, zero duties, the counter and the registry invariants hold in every state of every run |
| PageSafety.NoDoubleAllocation | platform/page_allocator.rs:256-303 | a page being handed out is in no pool, zone, stack, other thread or other client's block |
| PageSafety.PanicsUnreachable | platform/page_allocator.rs:670-702 | the double-alloc, pool-overlap and free-live-stack panics cannot be reached |
| PageSafety.EntriesAreLive | platform/stack_cache.rs:104-144 | in every state of every run the registry holds only pages of stacks live at that moment |
| PageSafety.RegistryComplete | platform/stack_cache.rs:343-363 | while live stack pages number at most 256, the registry is exactly their set |
| PageSafety.ZeroFillGuarantee | platform/page_allocator.rs:704-708 | if a thread last started a request without DIRTY_OK or from a prezeroed pool, what it next delivers is zero over the requested pages, whichever path served it |
| PageSafety.CleanRequestStaysClean | platform/page_allocator.rs:256-303 | a request without DIRTY_OK, and one served by a prezeroed pool, stays a clean request until it is delivered or fails |
| PageSafety.PrezeroedCounterExact | platform/page_allocator.rs:815-852 | the prezeroed counter is the pool size plus pops not yet subtracted minus the push not yet added, so it never wraps |
| PageSafety.RefillKeepsAllPagesIffTheyFit | platform/page_allocator.rs:211-240 | a concurrent refill loses no page exactly when all of its pages fit into the cache |
| PageSafety.RefillCanLosePages | platform/page_allocator.rs:211-240 | a run from the initial state in which two refills push into one cache and a page that was free ends up nowhere |
| PageConservation.StepConserves | platform/page_allocator.rs:938-1089 | no step but an overfull refill makes a page vanish: a page at a place is at that place's target afterwards |
| PageConservation.PagesConservedIffRefillsFit | platform/page_allocator.rs:211-240 | in a run every initially free page is somewhere at all times exactly when every refill fits into the cache |
| PageConservation.PagesComeFromZones | platform/page_allocator.rs:211-303 | every page anywhere in a run was free in a zone at its start |
| PageConservation.DeliveredAsAsked | platform/page_allocator.rs:601-715 | what a thread delivers is what it last asked for, one page, one aligned block of that size, at most that many single pages or one 2 MB block, and its client owns exactly these blocks in addition |
| BuddyBlocks.HalvesAreBuddies | libs/kevlar_utils/buddy_alloc.rs:188-195 | the two halves of an aligned block are aligned buddies of each other |
| BuddyBlocks.MergeUndoesSplit | libs/kevlar_utils/buddy_alloc.rs:225-247 | merging a block with its buddy gives the block whose halves they are |
| BuddyBlocks.SplitStep | libs/kevlar_utils/buddy_alloc.rs:188-195 | one split keeps the listed blocks disjoint, aligned, maximal and covering the same pages |
| BuddyBlocks.MergeStep | libs/kevlar_utils/buddy_alloc.rs:225-247 | one merge keeps them so |
| BuddyBlocks.FreeBlockIsListed | libs/kevlar_utils/buddy_alloc.rs:155-180 | if all pages of an aligned block are free, a listed block contains it |
| FreeLists.FreeLists.PushFree | libs/kevlar_utils/buddy_alloc.rs:280-288 | the links in free memory represent the old blocks plus the new one |
| FreeLists.FreeLists.PopFree | libs/kevlar_utils/buddy_alloc.rs:290-299 | the links represent the old blocks minus the one returned |
| FreeLists.FreeLists.RemoveFromFreeList | libs/kevlar_utils/buddy_alloc.rs:252-278 | found exactly when listed, and then exactly that block leaves |
| BuddyAllocator.Zone.constructor | libs/kevlar_utils/buddy_alloc.rs:81-117 | the greedy carving covers the whole range with maximal aligned blocks, all pages free |
| BuddyAllocator.Zone.AllocOrder | libs/kevlar_utils/buddy_alloc.rs:155-207 | returns an aligned free block of the order and marks just its pages, and fails exactly when no aligned block of that order is entirely free |
| BuddyAllocator.Zone.SplitDown | libs/kevlar_utils/buddy_alloc.rs:188-195 | repeated splitting keeps the free set and ends at the wanted order |
| BuddyAllocator.Zone.FreeCoalesce | libs/kevlar_utils/buddy_alloc.rs:211-248 | succeeds exactly when every page of the block is marked allocated; then just these pages become free and the lists are maximal again |
| BuddyAllocator.Zone.Coalesce | libs/kevlar_utils/buddy_alloc.rs:225-247 | the merge loop stops only when the buddy is not listed |
| BuddyAllocator.LargestOrder | libs/kevlar_utils/buddy_alloc.rs:98-111 | the loop finds the largest aligned order that still fits |
| PageAllocator.PagePool.Pop | platform/page_allocator.rs:84-92 | last in, first out, or none when empty |
| PageAllocator.PagePool.Push | platform/page_allocator.rs:94-103 | appends, or refuses exactly when full |
| PageAllocator.Allocator.TakeFromZones | platform/page_allocator.rs:211-230 | pages move from the zones to the buffer, a zone is touched only when those before it are empty, and the buffer stays short only when all are empty |
| PageAllocator.Allocator.RefillPageCache | platform/page_allocator.rs:211-240 | what is pushed and what is dropped, for every amount of room in the cache |
| PageAllocator.Allocator.AllocPage | platform/page_allocator.rs:256-303 | the prezeroed pool first unless DIRTY_OK, then the top of the cache, then a refill; conserves every page, keeps both hint counters exact, and fails exactly when there is nothing left to give |
| PageAllocator.Allocator.AllocPageBatch | platform/page_allocator.rs:601-638 | the cache from its top, then the zones; conserves every page and is short only when both have run dry |
| PageAllocator.Allocator.FreePage | platform/page_allocator.rs:1055-1088 | the page goes to the top of the cache or, if that is full, to a zone that includes it; fails exactly when no zone does |
| PageAllocator.Allocator.RefillPrezeroedPages | platform/page_allocator.rs:831-863 | nothing above half full; below, tops up to the full pool unless the free pages run out, conserving every page |
| RefCount.HugeIncKeepsMarksIffNoneInside | platform/page_refcount.rs:129-137 | the 512-fold increment keeps every kernel-image mark exactly when no marked page is in its range |
| RefCount.HugeUpAt | platform/page_refcount.rs:129-137 | the loop adds one, with 16-bit wrap, to exactly the tracked pages of the range |
| RefCount.Counts.Inc | platform/page_refcount.rs:35-44 | adds one unless untracked or marked |
| RefCount.Counts.Dec | platform/page_refcount.rs:48-60 | subtracts one unless untracked or marked, and reports free exactly on the last count or an untracked page |
| RefCount.Counts.IncHuge | platform/page_refcount.rs:129-137 | the loop over 512 pages equals the functional increment |
| CowLifetime.EveryRunKeepsInv | platform/page_refcount.rs:34-90 | counts, bounds, reports and in-flight operations stay consistent in every run |
| CowLifetime.CountIsLiveReferences | platform/page_refcount.rs:34-60 | with at most 65534 references per page the stored count is the number of live references, and lifetimes and free reports match one to one |
| CowLifetime.LastDropReports | platform/pt_refcount.rs:59-68 | a decrement reports free exactly when it removes the last reference, and never underflows |
| CowLifetime.SentinelNeverFreed | platform/page_refcount.rs:85-90 | a kernel-image page keeps its mark and is never reported free |
| CowLifetime.UntrackedPageFreedTwice | platform/page_refcount.rs:48-53 | a run that allocates, shares and drops twice reports an untracked page free twice in one lifetime |
| CowLifetime.ReportsExactIffTracked | platform/page_refcount.rs:48-60 | every decrement of a page in every run reports free exactly on the last reference, exactly when the page is tracked |
| CowLifetime.TooManyReferencesLeak | platform/page_refcount.rs:34-60 | a run with 65535 references turns the counter into the kernel-image mark; all references go and the page is never reported free |
| CowLifetime.ReportedOnceIffWithinLimit | platform/page_refcount.rs:34-60 | every lifetime of a tracked page is reported exactly once in every run, exactly when at most 65534 references per page are made |
| RingBuffer.StoreAppends | libs/kevlar_utils/ring_buffer.rs:96-110 | writing behind the write position appends to the stored elements, wrap or not |
| RingBuffer.PopRemoves | libs/kevlar_utils/ring_buffer.rs:78-94 | moving the read position removes from the front, wrap or not |
| RingBuffer.Ring.FlagsMeanEmptyAndFull | libs/kevlar_utils/ring_buffer.rs:21-27 | readable means not empty, writable means not full |
| RingBuffer.Ring.CopyIn | kernel/pipe.rs:82-101 | the loop stores exactly the smaller of the data and the free room, across the wrap |
| RingBuffer.Ring.PopSlice | libs/kevlar_utils/ring_buffer.rs:78-94 | a nonempty front slice, or none exactly when empty or nothing is asked for |
| RingBuffer.Ring.CopyOut | kernel/pipe.rs:263-290 | the read loop delivers exactly the smaller of the request and the contents, in order |
| RingBuffer.Ring.PushSlice | libs/kevlar_utils/ring_buffer.rs:47-76 | the two-part copy does the same as the contiguous loop |
| Pipe.SharedPipe.Write | kernel/pipe.rs:116-173 | one attempt under the lock equals the specification, errors included |
| Pipe.SharedPipe.Read | kernel/pipe.rs:263-316 | one attempt under the lock equals the specification, errors included |
| Pipe.SharedPipe.DropWriter | kernel/pipe.rs:221-230 | only the writer flag changes |
| Pipe.SharedPipe.DropReader | kernel/pipe.rs:341-350 | only the reader flag changes |
| Pipe.StreamIntegrity | kernel/pipe.rs:116-173 | in every interleaving, bytes delivered followed by the ring contents are the bytes accepted, in order, and the ring never exceeds 65536 bytes |
| Pipe.CallsMoveTheMostPossible | kernel/pipe.rs:263-316 | every successful call moves exactly the smaller of requested and possible |
| Pipe.FlagsAreDrops | kernel/pipe.rs:221-230 | an end counts as closed exactly after its drop |
| Pipe.ReadAnswers | kernel/pipe.rs:263-308 | exactly when a read returns data, end of stream, EAGAIN or goes to sleep |
| Pipe.WriteAnswers | kernel/pipe.rs:116-165 | exactly when a write returns EPIPE, accepted bytes, EAGAIN, zero bytes or goes to sleep |
| Pipe.EndOfStream | kernel/pipe.rs:221-230 | a positive-length read returns nothing only after the writer dropped and every accepted byte was delivered, and so does every later one |
| Pipe.EndOfStreamReached | kernel/pipe.rs:263-308 | once the writer has dropped and everything accepted was delivered, every read returns zero bytes |
| Pipe.BrokenPipe | kernel/pipe.rs:341-350 | once the reader has dropped, no write on either path accepts a byte |
| Timers.TicksRoundUp | kernel/timer.rs:92-93 | the tick count is the request rounded up exactly when the product does not wrap |
| Timers.TimerList.Pass | kernel/timer.rs:232-249 | the decrement loop and the retain loop leave exactly the specified list and hand out exactly the specified processes |
| Timers.PassKeeps | kernel/timer.rs:234-247 | a pass keeps exactly the entries with at least two ticks left, each one tick shorter |
| Timers.PassExpires | kernel/timer.rs:234-247 | a pass hands out exactly the processes with at most one tick left |
| SleepProtocol.EveryRunKeepsInv | kernel/timer.rs:75-105 | every run keeps list, handlers, process states and call records consistent |
| SleepProtocol.NoLostSleep | kernel/timer.rs:75-105 | a process blocked by a sleep has its own entry with exactly the remaining passes on it, or a handler in flight is about to resume it |
| SleepProtocol.CollectedOnTheDuePass | kernel/timer.rs:232-254 | an entry is on the list exactly until the max(1, ticks)-th pass after its push, and that pass takes it |
| SleepProtocol.AtMostOneResume | kernel/timer.rs:251-254 | no entry is resumed twice in any run |
| SleepProtocol.ExactlyOneResume | kernel/timer.rs:251-254 | once the due pass is over and no handler is in flight, the entry was resumed exactly once and nobody is blocked by it |
| SleepProtocol.StateChanges | kernel/process/process.rs:1167-1240 | which steps change a process's state and to what; a signal or a resume makes every process runnable except an exited one |
| SleepProtocol.ExitedForEver | kernel/process/process.rs:1226-1231 | once exited and not entering a sleep, a process is exited in every later state, whatever resumes come late |
| SleepProtocol.SleepEnds | kernel/timer.rs:251-254 | a sleep ends only in a runnable process, by a signal or a timer resume, or in an exit |
| SleepProtocol.LosingRun | kernel/timer.rs:77-85 | with push and state change in separate lock holds, a run ends with a blocked process and no entry or resume left |
| SleepProtocol.LostForever | kernel/timer.rs:77-85 | such a process stays blocked through every continuation without a signal or exit |
| SleepProtocol.EarlyEndIffLeftover | kernel/timer.rs:75-105 | from any state of a run, a sleep can be resumed by a timer while its own due pass is still ahead exactly when the process still has an entry of an earlier sleep that is due sooner |
| SleepProtocol.InterruptedSleepLeavesEntry | kernel/timer.rs:75-105 | a concrete run: a one-second sleep cut by a signal leaves an entry that resumes a five-second sleep before its due pass |
| SplitMix.UnmixMix | kernel/random.rs:40-44 | the mixing function has a left inverse on 64-bit words |
| SplitMix.MixUnmix | kernel/random.rs:40-44 | the same inverse from the right: mixing is a permutation |
| SplitMix.MixByBits | kernel/random.rs:41-44 | which permutation it is: shift by 30, multiply, shift by 27, multiply, shift by 31, each xorshift stated bit by bit |
| SplitMix.OutputByBits | kernel/random.rs:38-45 | the word of every call from the seed, with every number of the algorithm spelt out |
| SplitMix.BitsDetermine | kernel/random.rs:41-44 | a word is determined by its bits |
| SplitMix.NeverRepeats | kernel/random.rs:36-45 | two calls return the same word exactly when their numbers agree modulo 2^64 |
| SplitMix.EveryWordOccurs | kernel/random.rs:36-45 | every 64-bit word is returned by some call among the first 2^64 |
| SplitMix.InterleavedCallsDiffer | kernel/random.rs:39-40 | however calls interleave over CPUs, equal words are at least 2^64 calls apart |
| SplitMix.LeRoundTrip | kernel/random.rs:53-54 | little-endian bytes determine the word |
| SplitMix.LeByteAt | kernel/random.rs:53-54 | byte k of a word is the k-th from its low end |
| SplitMix.ChunksDiffer | kernel/random.rs:48-63 | no two aligned eight-byte chunks of a filled buffer are equal within 2^64 chunks |
| SplitMix.Generator.NextWord | kernel/random.rs:38-45 | returns the next word of the stream and advances the state by one step |
| SplitMix.Generator.Fill | kernel/random.rs:48-63 | every byte of the buffer comes from the stream in order, the state advances one step per started eight bytes |
| SpawnFallback.StatusPipeTransparent | benchmarks/kvlr_posix_spawn.c:274-316 | for every action list the run with the pipe ends with the files of the plain interpretation or fails at the same action, the pipe never shares a descriptor with them, and without close-on-exec opens the tables agree completely |
| SpawnFallback.ActionMeans | benchmarks/kvlr_posix_spawn.c:288-313 | what every action that succeeds does to every descriptor and to the directory |
| SpawnFallback.ActionFails | benchmarks/kvlr_posix_spawn.c:288-313 | exactly when an action fails |
| SpawnFallback.ChdirThenOpen | benchmarks/kvlr_posix_spawn.c:307-312 | a change of directory is what a later open is resolved against |
| SpawnFallback.NewestRunsLast | benchmarks/kvlr_posix_spawn.c:280-281 | an action added at the head of the list runs after all earlier ones |
| SpawnFallback.FallbackChild.RunActions | benchmarks/kvlr_posix_spawn.c:274-316 | the list walk with its variable p is exactly the run with the pipe, and so transparent |
| SpawnFallback.FallbackChild.RunOp | benchmarks/kvlr_posix_spawn.c:282-313 | one action: the pipe stays unless the action names its descriptor and then goes to the lowest free one; the rest of the table does what the action means, failing exactly when it does |
| SpawnFallback.FallbackChild.Relocate | benchmarks/kvlr_posix_spawn.c:282-287 | moving the status descriptor to the lowest free one changes nothing else |
| SpawnFallback.FallbackChild.OpenOnto | benchmarks/kvlr_posix_spawn.c:299-306 | open, duplicate and close together put the new file on the wanted descriptor only |
| SpawnFallback.FallbackChild.Exec | benchmarks/kvlr_posix_spawn.c:318-327 | after exec the program has exactly the surviving files of the view, never the pipe |
| SpawnFallback.FilesIgnoreFree | benchmarks/kvlr_posix_spawn.c:299-306 | which descriptor an open happens to get never changes the resulting files or the failure |
| SpawnFallback.FlagsAgreeIff | benchmarks/kvlr_posix_spawn.c:299-306 | with the pipe open an action leaves the same table, flags included, unless it is a close-on-exec open onto the descriptor that is next only because the pipe blocks the lowest |
| SpawnFallback.FindTail | benchmarks/kvlr_posix_spawn.c:280-281 | the walk finds the oldest action |
| SpawnPaths.Translate | benchmarks/kvlr_posix_spawn.c:113-161 | the walk over the list and the 64-entry array gives the specified verdict |
| SpawnPaths.VerdictMeaning | benchmarks/kvlr_posix_spawn.c:128-159 | translated exactly when at most 64 actions are all supported; too big and unsupported exactly when that obstacle comes first |
| SpawnPaths.RunTogether | kernel/process/process.rs:2296-2340 | the kernel and the fallback child fail at the same action exactly when no reached action is refused, and then their tables stay in step |
| SpawnPaths.PathsAgreeIff | kernel/process/process.rs:2296-2340 | kernel and fallback child, its status pipe on any descriptor, fail alike or start the program with the same files exactly when no reached action is refused by the kernel and no close-on-exec open is left in the child's own table |
| SpawnPaths.PipeMakesTheDifference | benchmarks/kvlr_posix_spawn.c:299-306 | an input where kernel and plain interpretation give the program a descriptor that the child loses only because of the pipe |
| SpawnPaths.CloexecSourceDiffers | kernel/fs/opened_file.rs:532-570 | redirecting from a close-on-exec descriptor fails in the kernel path and works in the fallback |
| Mem.CopyBlock | platform/mem.rs:29-44 | four loads before four stores copy 32 bytes at once, even onto themselves |
| Mem.MemCpy | platform/mem.rs:27-59 | the three tiers are one simultaneous copy whenever the destination does not lie inside the source, above its start |
| Mem.MemMove | platform/mem.rs:63-76 | simultaneous copy for every length and overlap, nothing else changes |
| Newc.HexRoundTrip | tools/docker2initramfs.py:21 | eight digits give the number back |
| Newc.FieldsRoundTrip | tools/docker2initramfs.py:21 | the thirteen fields read back as their values modulo 2^32 |
| Newc.MagicAndTrailer | tools/docker2initramfs.py:21 | the magic and trailer bytes spell their texts |
| Newc.HexIsLower | tools/docker2initramfs.py:21 | all digits are lower case |
| Newc.HeaderLayout | tools/docker2initramfs.py:21 | every field is at its fixed offset in the header |
| Newc.RecordLayout | tools/docker2initramfs.py:22-27 | behind the header come name, terminator, zero padding, data and zero padding |
| Newc.RecordSize | tools/docker2initramfs.py:26-27 | a record with the right size is a multiple of four long |
| Newc.HeadersAgreeIff | tools/compare-bench.py:105-118 | the unmasked header equals the masked one exactly when every number has at most eight digits |
| Newc.WritersAgreeIff | tools/compare-bench.py:123-131 | behind the same header the record-relative and the absolute-offset writer agree byte for byte exactly at offsets that are multiples of four |
| Newc.Stream.WriteEntry | tools/compare-bench.py:92-131 | the padding loops append exactly the absolute record, end at a multiple of four, and from there on write the other writer's record whenever the numbers fit |
| NewcArchive.StreamAligned | tools/compare-bench.py:123-131 | after any calls, fitting or not, the stream is a multiple of four long |
| NewcArchive.StreamIsRecords | tools/compare-bench.py:92-131 | any calls from the empty stream whose numbers fit leave exactly the concatenation of the other writer's records |
| NewcArchive.StreamReadBack | tools/compare-bench.py:133-143 | such calls, ended by the trailer, read back as exactly their entries, in order |
| NewcArchive.WriteInitramfs | tools/compare-bench.py:133-143 | the calls one after the other leave exactly that stream |
| NewcArchive.ReadRecord | tools/docker2initramfs.py:64-84 | a record followed by anything reads back as its masked fields, its name and as many bytes as it declares |
| NewcArchive.Utf8Length | tools/docker2initramfs.py:76-79 | characters and bytes are equally many exactly for ASCII targets |
| NewcArchive.Utf8RoundTrip | tools/docker2initramfs.py:79 | decoding the bytes written for a link target gives its code points back |
| NewcArchive.ArchiveRoundTripIff | tools/docker2initramfs.py:40-96 | every entry reads back, in order, with its mode, owner, links, time, name and contents, exactly when all link targets are ASCII |
| NewcArchive.RecordsStartAligned | tools/docker2initramfs.py:26-27 | every record of such an archive starts at a multiple of four |
| NewcArchive.SkippedCleanlyIff | tools/docker2initramfs.py:88-91 | an entry reported as an error leaves no trace exactly when there is none: each leaves a stray header |
| NewcArchive.Writer.WriteHeader | tools/docker2initramfs.py:17-27 | appends header, name and padding, or only the header when the name is not ASCII |
| NewcArchive.Writer.WriteItem | tools/docker2initramfs.py:64-84 | appends exactly what the item's kind calls for |
| NewcArchive.Writer.CreateArchive | tools/docker2initramfs.py:40-96 | the loop with its inode counter writes the whole archive and the trailer |
| FlightRecorder.DescriptorRoundTrip | platform/flight_recorder.rs:110-114 | every packed field comes back whatever its neighbours hold |
| FlightRecorder.DecodeSlot | platform/flight_recorder.rs:283-303 | a recorded event is printed as it was recorded, the sequence number to 16 bits |
| FlightRecorder.SortedIsSortedPermutation | platform/flight_recorder.rs:318-324 | the sort is ordered by timestamp and a permutation |
| FlightRecorder.SortThenFilter | platform/flight_recorder.rs:318-324 | sorting commutes with every selection of entries, so it is stable |
| FlightRecorder.TimelineOfCpu | platform/flight_recorder.rs:270-311 | one CPU's part of the collection is its last 256 events, oldest first, zero timestamps left out |
| FlightRecorder.RecentIsTheLast | platform/flight_recorder.rs:275-285 | a ring keeps the last 256 events, or all of fewer |
| FlightRecorder.ShownStamped | platform/flight_recorder.rs:293-295 | no line without a timestamp |
| FlightRecorder.DumpShowsRecent | platform/flight_recorder.rs:270-324 | with a steady nonzero clock a CPU's part of the dump is, line by line, its recent events |
| FlightRecorder.EqualTimesKeepRecordOrder | platform/flight_recorder.rs:318-324 | events of one CPU with equal timestamps are dumped in record order |
| FlightRecorder.SteadyClockKeepsRecordOrder | platform/flight_recorder.rs:318-324 | a CPU's part of the dump is its recent history in order exactly when its clock never ran backwards in it |
| FlightRecorder.InsertionSort | platform/flight_recorder.rs:318-324 | the in-place adjacent-swap loop equals the functional insertion sort |
| FlightRecorder.Recorder.Record | platform/flight_recorder.rs:98-117 | the event joins its CPU's history and the ring still holds the last 256 of every CPU |
| FlightRecorder.Recorder.CollectCpu | platform/flight_recorder.rs:270-308 | appends one ring's events, oldest first |
| FlightRecorder.Recorder.Dump | platform/flight_recorder.rs:257-324 | the entries are the sorted permutation of every CPU's last 256 events |

## Left out

- Locks of rank 0, locks taken before lockdep is enabled, and interrupts inside its two hooks: lockdep does not see them.
- The exactness of the free-page statistics: the code subtracts the same pages more than once, so pages are followed as sets instead.
- The cache hint counter as a concurrent invariant: the concurrent model lets every hint read anything; it is exact in the sequential model only.
- The sequential allocator takes its zones as sets of free pages; the buddy allocator is proved separately, for one zone.
- Pipe wake-ups and their liveness, zero-length transfers, faulting user buffers and POSIX write atomicity.
- Wall-clock bounds of a sleep: handlers run on every CPU, so time is counted in handler passes; lock waiting time is not modelled.
- Interrupts are allowed at more points than the hardware delivers them, so the lock-order runs include some that cannot happen; the two deadlock runs use none of these.
- In the sleep protocol a resume of an exited process is one step, although the code swaps the state and puts it back.
- Racing first calls that seed the random generator twice: the word stream is stated from the last seeding on.
- SpawnPaths.PathsAgreeIff: only for descriptors from 0 to 1023, as the list builder and the table limit give, with no file creation and the same answer of the file system to both paths.
- Error numbers, spawn attributes, signal masks and process groups of posix_spawn; descriptor limits in the fallback.
- Mem.MemCpy: the x86 variants in assembly and the forward copy onto an overlapping higher destination, which its callers must not ask for.
- Mem.MemMove: the string-instruction path of x86 that the forward case then uses.
- FlightRecorder.Recorder.Record: indices are unbounded, so the wrap of the 64-bit write index after 2^64 events is not modelled; two interrupts racing on one CPU's slot are not either.
- NewcArchive.Writer.WriteItem: a file that cannot be read or changes size between its status and its reading, and link targets that cannot be encoded.
- `page_ref_init_huge`, the stack-guard scans, corruption sweeps, statistics, symbol lookup, base64 output, drivers, boot, page-table walks and inline assembly: easy or hardware-bound.
