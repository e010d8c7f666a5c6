# A verified model of the Ironclad garbage collector

Ironclad bundles the Boehm-Demers-Weiser collector in `libs/gc`, with changes of its own: an object kind
`PRECISE`, among others.  This project models the parts of that collector whose correctness does not show
in any one function, and proves what they are for:

* **The marker.**  The six-state machine of `GC_mark_some` with its mark stack, which may overflow and drop
  entries; incremental collection, where the program runs between the steps and only dirty bits record what
  it writes; and the driver of `alloc.c` that stops the world.  Whenever a collection succeeds, every object
  reachable from the roots without stray words (see below) is marked, whatever happened before (`MarkModel`,
  `MarkSafety`, `MarkRuns`); marking ends (`MarkTermination`) and a full collection marks nothing it need not
  (`MarkExact`).  The class `Collector` (`CollectorState`) is the code that updates the globals, proved against
  the model.
* **The parallel marker** as interleaved atomic steps of any number of threads, which split ranges, steal, share and
  hand back entries (`ParallelMark`); how the mark phase that calls it stays correct for every interleaving
  (`ParallelPhase`); when it makes progress (`ShareBound`, `ParallelProgress`, `FruitlessRun`), and that it comes to
  an end (`ParallelEnds`); the optimised scan of memory ranges inside `GC_mark_from`, against a scan from left to
  right (`RangeScan`).
* **The heap-block allocator**: segregated, doubly linked free lists with splitting, coalescing and black
  lists (`HeapShape`, `FreeLists`, `BlockSteps`, `BlockAllocators`, `MergeSteps`, `BlackLists`).  The heap
  stays partitioned, the search is complete, and freeing what was allocated restores the partition.
* **The header index**: bottom indices in two sorted lists, with forwarding counts, against the partition of
  the heap, up to `GC_base` (`HeaderIndex`, `IndexSteps`, `HeaderTables`, `ObjectBase`); and allocator and
  index together, from the empty heap on (`IndexedHeaps`).
* **Small objects**: free-list builders, allocation, batch allocation and freeing over a memory that clients
  write to (`SmallObjects`, `SmallHeap`, `SmallAllocator`), on pages from the block allocator (`SmallOnHeap`); and
  the size map (`SizeMap`).
* **Side structures**: finalization and its hash tables (`FinalizeModel`, `Finalization`, `ChainTables`),
  excluded roots (`Exclusions`), root areas pushed page by page (`RootPages`), and the thread-specific table that
  is read without a lock (`Specific`).

Code that updates state in place is modelled by classes and arrays whose methods are proved against
functions on values; the properties are proved of those functions.  `Arithmetic` holds facts about division.

## What was found

* **Precise objects and ATOMIC_UNCOLLECTABLE.**  With `ATOMIC_UNCOLLECTABLE`, which
  `libs/gc/include/private/config.h:8` defines, `IS_UNCOLLECTABLE` ignores the low bit of the kind, and
  `PRECISE` is 3 next to `UNCOLLECTABLE` 2.  `GC_clear_marks` therefore keeps the marks of precise objects,
  but `GC_push_next_marked_uncollectable` scans only blocks whose kind equals `UNCOLLECTABLE`.  A precise
  object then hides its children from a full collection.  `MarkBuilds.BuildSafeIff` gives the exact
  condition, `PreciseObjectLosesChild` a run.
* **Stray words.**  In incremental mode, a word of an old, clean, marked object that happens to hold the address
  of memory allocated later does not get the new object marked, so "everything that words lead to is marked" is false
  of such runs: `StrayWords.StrayWordMissed` is a complete one.  The model keeps these words as history (`stray`), and
  `MarkRuns.StoppedMarkSafe` shows of all runs that what is missed is reachable through stray words only.
  `NewBlockInvIff` says when an allocation makes a word stray; collections that are not incremental have none.
* **Parallel marking may make no progress.**  When `GC_return_mark_stack` has no room, entries are dropped and the
  state becomes invalid, although nothing new need have been marked, and the rescan may come to the same point.
  `FruitlessRun` is such a run, for every capacity of the mark stack.  It takes a range longer than `SHARE_BYTES`
  (`ShortNeverFruitless`) and a mark stack smaller than a bound that is computed from the sizes of the ranges on it
  (`NeverFruitless`).  A call of `GC_mark_some` gets closer to the end of the mark phase if and only if it is not one in
  which parallel marking of static data alone comes out like this and no memory is found for a larger mark stack
  (`MarkSomeCloser`); so with GC_parallel a mark phase ends if the mark stack can be enlarged up to that bound.
* **Finalization and overflow.**  When marking on behalf of a registered object overflows the mark stack,
  `GC_MARK_FO` marks the object itself, which is then not enqueued.  `ExactUnlessOverflow` gives the exact
  condition, computed from the state before; `ExactIfRoom` one that can be checked at once (more entries in the
  mark stack than unmarked objects); `OverflowDelays` is a heap on which the queue is not exact.
* **Sharing long ranges.**  When a range is shared for parallel marking, one word is considered twice
  (`ShareTwice`), which is harmless; but half the size is held in an `int`, so ranges from 4 GB on may be
  split at a point below their start (`ShareInsideIff`, `FourGigabytes`).
* **The full exclusion table.**  `GC_exclude_static_roots_inner` moves entries up before it checks that there
  is room, and writes behind the table before it aborts; `Exclude` says exactly when, `OverrunFullTable` is a
  case.  Its check for overlapping ranges, called incomplete in a comment, is complete (`OverlapTest`).
* **Unregistering a link before any was registered** reads the null table (`UnregisterLink`, `UnregisterFirst`),
  and **remove_specific** in a thread that has no value uses a null entry (`RemoveCrashesIff`, `RemoveTooEarly`).
* The comment on `GC_enough_large_bytes_left` (`libs/gc/allchblk.c:62-65`) says "greater than" where the code
  tests "at least"; the model follows the code.

## Assumptions

* An entry of the header index is nil, a forwarding count between 1 and `MAX_JUMP`, or a header.  Sizes such
  as `HBLKSIZE`, the granule size, `BOTTOM_SZ`, `MAX_JUMP` and the table sizes are constants without a value;
  their types say what is required of them.
* A word of memory refers to the object that `GC_base` makes of it; a heap is a finite map of objects, and
  the children of an object are the words of it that refer to objects.
* The objects of one block fit in the room that `GC_mark_some` leaves on the mark stack before it scans a
  block; this holds for the stack size and granule size of the source (`MAX_BLOCK_OBJECTS`).
* There are at most half as many static root areas as entries in the initial mark stack; beyond that
  `GC_push_all` may abort (`MarkSomeNoAbort`), and the statements are about runs that do not abort.  An area is
  pushed as one entry; pushed page by page, fewer than an eighth of the initial stack may be areas
  (`SelectedRootsFit`).
* Where the mark phase would otherwise be stuck as `MarkTermination.Stuck` says, memory for a larger mark stack is
  found; the driver is proved to end on this assumption (`AskForAnswer`).
* The results about progress of parallel marking are for sizes such that one call of `GC_mark_from` gets ahead of what
  a thread takes at once (`Sized`): a block of at least 3328 bytes and local mark stacks of at least 72 entries, as in
  all builds but those with `SMALL_CONFIG`; and for ranges of less than 4 GB, because of the overflow above.
* `GC_finalize` runs after the world was started, but with the allocation lock held; no mutator takes a step in between,
  if the program needs that lock to reveal a hidden pointer, as the comment on `GC_MARK_FO` demands.  The variable
  `stopped` stands for the whole interval (`Quiet`, `CollectAndFinalize`).
* Memory accesses are sequentially consistent.  Quick thread ids are handed out to one thread at a time; a
  thread gives them up when it has ended without a value in the table.
* Answers of stop functions, of the operating system and of `GC_should_collect`, and the success of
  allocating headers, mark stacks and table entries, are inputs; header allocation succeeds.
* Mark stack entries with a length descriptor are at least one word long and a multiple of `ALIGNMENT`, as the
  assertion in `GC_mark_from` demands; `RangeScan` counts addresses in units of `ALIGNMENT`.
* The exclusion table is not empty when it is searched, as the source's comment says.
* The size map has free lists for at least eight sizes of their own (the source has 24 or more), and half a
  block is an even number of granules.

## Model

| member | source | states |
|---|---|---|
| `MarkSafety.MarkSomeInv` | libs/gc/mark.c:329-446 | Every call of GC_mark_some keeps the invariant of gc_pmark.h word by word: each word of a marked object or of a root refers to a marked object, or is in a range on the mark stack, or lies in a dirty page, or is owed by the current state (pages still to be rescanned, blocks still to be scanned, everything when the state is invalid), or is stray; also when the mark stack overflows; in MS_ROOTS_PUSHED with GC_parallel, whatever GC_do_parallel_mark comes to |
| `MarkSafety.AfterParallelInv` | libs/gc/mark.c:385-402 | The branch that marks in parallel keeps the invariant: either everything on the stack is marked, or entries were lost and the state is MS_INVALID |
| `MarkSafety.MarkSomeComplete` | libs/gc/mark.c:383-417 | When GC_mark_some reports the end of a mark phase and the world is stopped, everything is marked that a path of words from the roots leads to without a stray word; without stray words, everything reachable |
| `MarkSafety.PushNextInv` | libs/gc/mark.c:1820-1882 | Scanning the next marked, dirty or uncollectable block keeps the invariant, although GC_push_marked may overflow the mark stack |
| `MarkRuns.InitiateInv` | libs/gc/mark.c:261-282 | Stopping the world turns what the dirty bits owe into what the grungy pages owe |
| `MarkRuns.WriteFieldInv` | libs/gc/os_dep.c:3403-3428 | A write of the mutator changes one word, and keeps the invariant because it makes its page dirty |
| `MarkRuns.StepInv` | libs/gc/alloc.c:581-687 | Every event but the allocation of a kind whose marks are kept without being scanned again keeps the invariant: steps of the marker, sequential or parallel, writes of the mutator to objects, stacks and static data, allocation and freeing of blocks, starting and stopping the world, clearing (GC_clear_marks) and invalidating |
| `MarkRuns.RunInv` | libs/gc/alloc.c:350-545 | The invariant holds after any sequence of events |
| `MarkRuns.NewBlockInv` | libs/gc/allchblk.c:801-810 | Allocating a block keeps the invariant if and only if the marks of its kind are not kept without being scanned again; words of clean marked objects that happen to refer to the new block become stray |
| `MarkRuns.NewBlockInvIff` | libs/gc/allchblk.c:801-810 | Allocating a block keeps the invariant, and makes no word stray, if and only if the marks of its kind are not kept without being scanned again and no word that the collector will not look at again refers to the new block already (which only incremental mode asks for) |
| `StrayWords.StrayWordMissed` | libs/gc/allchblk.c:801-810 | A run of a safe build from the first state on, fourteen events long, at the end of which GC_stopped_mark succeeds and an object is not marked to which the stacks lead: by way of a word that became stray when the object was allocated |
| `MarkRuns.StoppedMarkSafe` | libs/gc/alloc.c:581-687 | In every run, with sequential or parallel marking, when GC_stopped_mark succeeds, everything is marked that paths without stray words lead to from the roots, whatever the mutator wrote between the attempts: what is missed is reachable through stray words only, and without stray words nothing is missed |
| `MarkRuns.NoneStrayUnlessIncremental` | libs/gc/mark.c:261-282 | Runs of a collector that is not incremental have no stray words, so that when they succeed everything reachable is marked |
| `MarkBuilds.BuildSafeIff` | libs/gc/include/private/gc_priv.h:1249-1260 | For the predefined kinds: in all runs of a build nothing is missed but through stray words, if and only if the build does not combine ATOMIC_UNCOLLECTABLE with objects of kind PRECISE |
| `MarkBuilds.PreciseObjectLosesChild` | libs/gc/mark.c:186-195 | A complete run of a build that combines both, at the end of which an object is not marked although a path without stray words leads to it |
| `MarkTermination.MarkSomeCloser` | libs/gc/mark.c:329-446 | A call of GC_mark_some that does not abort lowers a lexicographic measure (unmarked objects, whether the mark stack holds more than static data, how much it lacks of the size that static data may need, phase, blocks ahead of scan_ptr, words on the mark stack) if and only if it is not one in which parallel marking from static data alone loses entries, marks nothing and gets no larger mark stack; so a mark phase ends however often the stack overflows, sequential marking always, and parallel marking if its stack can be enlarged where it must be |
| `MarkTermination.StuckTooSmall` | libs/gc/mark.c:385-402 | Parallel marking gets stuck in that way only with a mark stack smaller than a bound computed from the static areas |
| `MarkTermination.MarkSomeNoAbort` | libs/gc/mark.c:1296-1314 | GC_push_all does not run out of mark stack while there are at most half as many root areas, pushed as one entry each, as entries in the initial stack |
| `MarkTermination.MarkSomeNotIdle` | libs/gc/mark.c:329-446 | GC_mark_some reports the end exactly when the state is MS_NONE |
| `MarkExact.FullCollectionBounded` | libs/gc/mark.c:247-450 | A full collection, sequential or parallel, marks nothing outside a set that contains the retained objects, the roots and the children of its members |
| `MarkExact.FullCollectionExact` | libs/gc/mark.c:247-450 | A full collection marks the least such set: no overflow, invalidation or rescan makes it mark more or less |
| `CollectorState.Collector.MarkRound` | libs/gc/mark.c:660-910 | One round of GC_mark_from in place: the top entry loses the piece that is scanned, and the pointers in that piece are marked and pushed |
| `CollectorState.Collector.MarkFromMarkStack` | libs/gc/mark.c:634-915 | GC_mark_from: rounds until the stack is empty or the credit is spent |
| `CollectorState.Collector.SignalMarkStackOverflow` | libs/gc/mark.c:605-614 | On overflow the state becomes invalid, a larger stack is asked for and the top entries are dropped |
| `CollectorState.Collector.PushNext` | libs/gc/mark.c:1820-1882 | The loop over blocks finds the least block at or after scan_ptr that passes the filter, pushes it and moves scan_ptr behind it, or to the null pointer |
| `CollectorState.Collector.PushRoots` | libs/gc/mark.c:347-380 | Static areas and stacks are pushed and the state becomes MS_ROOTS_PUSHED unless it is invalid |
| `CollectorState.Collector.MarkInParallel` | libs/gc/mark.c:385-402 | The branch with GC_parallel, for every outcome of GC_do_parallel_mark: the stack is emptied, enlarged if it was too small, and the phase ends unless the state is invalid |
| `CollectorState.Collector.MarksFromStack` | libs/gc/mark.c:1164-1196 | Some marks that parallel marking without a loss can come to: all that the mark stack leads to |
| `CollectorState.Collector.MarkSome` | libs/gc/mark.c:329-446 | The six-state machine on the global variables, with both branches of MS_ROOTS_PUSHED, reaches the state for which MarkSomeInv, MarkSomeCloser and MarkSomeComplete are proved, with the same answer |
| `CollectorState.Collector.InitiateGc` | libs/gc/mark.c:261-282 | The world stops, the dirty bits become the grungy bits if marking is incremental, an idle state becomes MS_PUSH_RESCUERS, and any other state but MS_INVALID aborts |
| `CollectorState.Collector.ClearMarks` | libs/gc/mark.c:186-258 | The loop over all blocks clears exactly the marks of objects whose kind is not uncollectable; there are no stray words after it |
| `CollectorState.Collector.Step` | libs/gc/mark.c:329-446 | A step of the driver keeps the invariant and lowers the measure, unless parallel marking is stuck |
| `CollectorState.Collector.MarkUntilStopped` | libs/gc/alloc.c:622-640 | The loop of GC_stopped_mark asks the stop function before every call of GC_mark_some, counts the calls, and ends exactly when the answer is to stop or marking is done; parallel marking may lose entries and mark nothing again and again, as long as memory for a larger mark stack is found when that alone lets it go on |
| `CollectorState.Collector.RunSteps` | libs/gc/alloc.c:502-520 | The steps taken while the world runs are as many calls of GC_mark_some as the rate and the deficit say, unless a mark phase ends before; they keep the invariant and get closer to the end |
| `CollectorState.Driver.StoppedMark` | libs/gc/alloc.c:581-687 | The calls of GC_mark_some start from the state GC_initiate_gc leaves, and mark only what they find; TRUE means that everything is marked that paths without stray words lead to, and the collection is counted; FALSE leaves a state that can be resumed, and the number of calls as GC_deficit |
| `CollectorState.Driver.CollectInProgress` | libs/gc/alloc.c:502-545 | GC_collect_a_little_inner during a collection: the steps that are due, then, only if they end a mark phase, stopped marking, which may be given up only on the first attempts and with a time limit; all counters; when it is finished nothing is missed but through stray words |
| `CollectorState.Driver.FinishCurrent` | libs/gc/alloc.c:420-430 | The collection in progress is finished and counted, unless an answer of the stop function, asked before every round, is to give up; marks are only added, and only what is found |
| `CollectorState.Driver.CollectFully` | libs/gc/alloc.c:445-470 | A full collection: starts with only the marks that GC_clear_marks keeps; what is marked when it is completed is the least closed set around them and the roots; given up, it leaves the state invalid unless marking is incremental |
| `MarkExact.FullCallsExact` | libs/gc/alloc.c:445-470 | The calls of GC_mark_some from the start of a full collection to the report of its end mark the least closed set around the retained objects |
| `CollectorState.Driver.TryToCollect` | libs/gc/alloc.c:412-470 | GC_try_to_collect_inner does nothing under GC_dont_gc or when the stop function says so at once; otherwise it finishes a collection in progress, starts over and collects, giving up exactly when the stop function or GC_reclaim_all says so; success means that the marks are the least closed set around the roots and the objects whose marks are kept, also in incremental mode, so that all reachable objects are marked and no others; all counters |
| `CollectorState.Driver.MaybeGc` | libs/gc/alloc.c:350-407 | GC_maybe_gc makes a full collection exactly if one is due: then, when it is reported, the marks are the least closed set around the roots and the objects whose marks are kept; a partial one keeps the marks of the last and adds only what is found; the number of partial collections and the other counters |
| `ParallelMark.StepInv` | libs/gc/mark.c:625-1222 | Every atomic step of every marker thread, of the initiator and of joining helpers keeps the invariant: counts are right, entries below GC_first_nonempty are taken, and every word of a deposited entry or newly marked object refers to a marked object, is covered by an entry on the global stack, or is in the hands of a thread, unless the state is invalid; also when ranges are split, cut, shared or handed back |
| `ParallelMark.RunKeepsInv` | libs/gc/mark.c:625-1222 | The invariant holds in every state of every interleaving |
| `ParallelMark.ParallelMarkComplete` | libs/gc/mark.c:1164-1196 | When GC_do_parallel_mark returns, no thread is active or helping, the global stack is exhausted, and all that the words of deposited entries and newly marked objects refer to is marked unless the state is invalid |
| `ParallelMark.RunWithin` | libs/gc/mark.c:625-1222 | Nothing is pushed or marked that cannot be found from the entries |
| `ParallelMark.StacksNeverOverrun` | libs/gc/mark.c:975-1001 | In no interleaving does a marker thread write behind its local mark stack, or behind the global one |
| `ParallelPhase.RunGivesAnswer` | libs/gc/mark.c:1164-1196 | From any mark stack, every interleaving of the threads in which GC_do_parallel_mark returns is one of the answers GC_mark_some is proved for: everything on the stack and everything newly marked is scanned unless the state is invalid, nothing unneeded is marked, and if entries were lost and nothing was marked the mark stack was smaller than a bound computed from it |
| `ParallelPhase.ParallelPhaseComplete` | libs/gc/mark.c:385-402 | A mark phase with the world stopped that ends in parallel marking leaves nothing unmarked but what only stray words lead to, whatever the interleaving |
| `ParallelMark.QuiescentWhenInactive` | libs/gc/mark.c:1075-1130 | When the active count reaches 0 and GC_first_nonempty is past the top, no thread holds any work |
| `ParallelMark.NoDeadlock` | libs/gc/mark.c:1061-1160 | While there are helpers, some thread in the marker can take a step that changes the state; only a thread that waits while others are active has none |
| `ParallelEnds.StepLower` | libs/gc/mark.c:625-1222 | Every step that changes the state lowers a lexicographic measure of eight numbers, among them the threads that may still come to help, the unmarked objects, the room on the mark stack, the words still to be scanned, and the steps each thread may still look for work |
| `ParallelEnds.ParallelMarkReturns` | libs/gc/mark.c:1164-1196 | In every endless schedule that does not come to a standstill while some thread can move, GC_do_parallel_mark returns |
| `ParallelProgress.FruitlessIffRefused` | libs/gc/mark.c:975-1001 | A phase that has marked nothing is invalid if and only if GC_return_mark_stack has refused some entries for lack of room |
| `ParallelProgress.NeverFruitless` | libs/gc/mark.c:1009-1048 | A phase whose mark stack has room for what splitting the ranges on it can come to, a number computed from their sizes and the number of threads, never becomes invalid without having marked something |
| `ParallelProgress.ShortNeverFruitless` | libs/gc/mark.c:680-706 | If no range on the mark stack is longer than SHARE_BYTES, a phase that becomes invalid has marked something, whatever the size of the mark stack |
| `ParallelPhase.FruitlessTooSmall` | libs/gc/mark.c:385-402 | The bound for the mark phase: if the threads lose entries and mark nothing, the mark stack was smaller than what its entries and the largest number of markers give |
| `FruitlessRun.FruitlessRun` | libs/gc/mark.c:1009-1048 | For every capacity of the mark stack, a run with the sizes of a 64-bit build that returns with an invalid state and has marked nothing: the mark stack is full, one thread splits a range of 4096 words without pointers while the other scans the rest and waits, and what the first comes to share finds no room |
| `RangeScan.ScanIs` | libs/gc/mark.c:833-880 | The plain scan takes every plausible pointer of a range, and takes them in ascending order |
| `RangeScan.RangeMarker.FindDeferred` | libs/gc/mark.c:849-868 | The unrolled backward search finds the last plausible pointer of the range, or that there is none |
| `RangeScan.RangeMarker.Forward` | libs/gc/mark.c:871-908 | The forward loop and the deferred pointer take every plausible pointer once, in ascending order |
| `RangeScan.RangeMarker.ScanPiece` | libs/gc/mark.c:828-910 | The optimised scan of a range applies PUSH_CONTENTS to the same pointers in the same order as the plain scan |
| `RangeScan.SplitExact` | libs/gc/mark.c:704-718 | Splitting 127 words off a long range neither loses a position nor takes one twice |
| `RangeScan.ShareTwice` | libs/gc/mark.c:679-701 | Sharing a range takes every position, and exactly the first one of the upper part twice |
| `RangeScan.ShareInsideIff` | libs/gc/mark.c:682-700 | The parts of a shared range lie inside it if and only if half its size does not have bit 31 set, because new_size is an int |
| `RangeScan.FourGigabytes` | libs/gc/mark.c:682-700 | A range of 4 GB is split so that words below it are scanned |
| `RangeScan.RangeMarker.PushContents` | libs/gc/include/private/gc_pmark.h:135-161 | A push on a full stack drops GC_MARK_STACK_DISCARDS entries and records the overflow |
| `RangeScan.RangeMarker.MarkTop` | libs/gc/mark.c:656-910 | One round of GC_mark_from: the top entry is dealt with as TakeTop says, and PUSH_CONTENTS is applied to the pointers of the piece in order, with what that makes of the stack; the account is kept: pointers considered, owed by the stack and dropped add up to those of all entries ever pushed, plus the overlaps |
| `RangeScan.RangeMarker.TakeTop` | libs/gc/mark.c:656-725 | A long top entry is shared in halves while that is allowed and there is room for more than one entry, then cut at 127 words; no pointer of it is lost |
| `RangeScan.RangeMarker.MarkFrom` | libs/gc/mark.c:634-915 | Rounds as MarkTop describes them, and no fewer, until the stack is empty or the credit is spent: stack, credit and the positions considered are those after that many rounds; when the stack runs empty without an overflow, every plausible pointer of every entry was considered once, and once more for each shared range whose upper part it begins |
| `RangeScan.RangeMarker.Complete` | libs/gc/mark.c:634-915 | Without parallel marking each was considered exactly once |
| `HeapShape.ShapeUnique` | libs/gc/allchblk.c:828-889 | Two partitions of the same pages with the same used blocks and no adjacent free blocks are equal |
| `HeapShape.CarveThenRelease` | libs/gc/allchblk.c:494-564 | Freeing a block that was cut out of a free block restores the partition |
| `FreeLists.RemovedOk` | libs/gc/allchblk.c:286-320 | GC_remove_from_fl keeps all lists doubly linked, complete and rightly counted |
| `FreeLists.AddedOk` | libs/gc/allchblk.c:358-385 | GC_add_to_fl puts a block at the head of the list for its size, with all links and counts right |
| `FreeLists.ReplacedOk` | libs/gc/allchblk.c:535-564 | Replacing a list entry by the second part of its block keeps the lists right |
| `BlockSteps.FirstPartOk` | libs/gc/allchblk.c:494-530 | Cutting off the first part of a free block leaves the rest on the list for its size |
| `BlockSteps.SplitOk` | libs/gc/allchblk.c:535-564 | Splitting a free block keeps lists and partition and the number of free bytes |
| `BlockSteps.AllocationOk` | libs/gc/allchblk.c:775-820 | Taking n blocks at r out of a free block keeps the whole heap in order: partition, lists, counts, no adjacent free blocks |
| `BlockSteps.DropOk` | libs/gc/allchblk.c:732-770 | Dropping a free block whose every page is black-listed keeps the heap in order |
| `BlockSteps.SearchIsComplete` | libs/gc/allchblk.c:579-633 | If all lists may be split, failure means that no free block is large enough, and nothing has changed, for objects that are never collected and for small ones without pointers |
| `BlockSteps.FailureMeansBlackListed` | libs/gc/allchblk.c:579-820 | For all other objects failure means that in every free block that is large enough no start is clear of the black lists, and that not both the object and the rest of the block are larger than the black-list spacing |
| `BlockSteps.GrantedPagesClean` | libs/gc/allchblk.c:683-698 | Such an object is granted on pages none of which is black-listed (with IGNORE_OFF_PAGE its first page), unless it and the rest of the block are larger than the black-list spacing and no place in the block is clear |
| `BlockSteps.FreeRight` | libs/gc/allchblk.c:846-857 | Freed blocks are joined to the free block behind them |
| `BlockSteps.FreeLeft` | libs/gc/allchblk.c:858-888 | ... and to the free block before them, and the result is listed once |
| `BlockSteps.AllocateThenFree` | libs/gc/allchblk.c:579-889 | Allocating a block and freeing it restores the partition of the heap |
| `BlockSteps.NoBlocksLost` | libs/gc/checksums.c:160-175 | Used blocks and free blocks add up to the heap |
| `BlockSteps.NewSectionOk` | libs/gc/alloc.c:1030-1100 | A new section enters the heap as one block |
| `BlockAllocators.BlockAllocator.RemoveFromFl` | libs/gc/allchblk.c:286-320 | Unlinks the block at both ends and at the list head and takes its size off the count of its list; the new heap is the one of which TakeOk and RemovedOk show that all lists stay right |
| `BlockAllocators.BlockAllocator.AddToFl` | libs/gc/allchblk.c:358-385 | Enters the block at the head of the list for its size; the new heap is the one of which GiveOk and AddedOk show that all lists stay right |
| `BlockAllocators.BlockAllocator.GetFirstPart` | libs/gc/allchblk.c:494-530 | Takes the block off its list and lists what is left of it; the new heap is that of FirstPartOk |
| `BlockAllocators.BlockAllocator.SplitBlock` | libs/gc/allchblk.c:535-564 | The second part takes the place of the block on its list and the first part is listed by its size; the new heap is that of SplitOk |
| `BlockAllocators.BlockAllocator.DropBlock` | libs/gc/allchblk.c:732-770 | Every page of the block becomes a used block of its own, and the bytes are counted as dropped; the new heap is that of DropOk |
| `BlockAllocators.BlockAllocator.FindStart` | libs/gc/allchblk.c:690-698 | The loop over starts finds the first one whose pages pass the test, or that there is none |
| `BlockAllocators.BlockAllocator.AllocHblkNth` | libs/gc/allchblk.c:650-822 | GC_allochblk_nth returns a block cut from list n, the first that is usable and not passed over for an obviously better next one, or 0 when no entry of the list is usable; of the blocks it meets as black-listed throughout it gives up every fourth |
| `BlockAllocators.BlockAllocator.AllocHblk` | libs/gc/allchblk.c:579-633 | GC_allochblk keeps the heap in order; an exact match is taken if there is one, and otherwise the first fit on the first list, up to the limit, that holds a usable block; the limit is the last list if more of the heap is to be used, 0 if finalizers freed a lot, and else the greatest list number from which on enough bytes are free or allocated; failure means that no free block up to the limit, and no exact match, is usable |
| `BlockAllocators.BlockAllocator.EnoughLargeBytesLeft` | libs/gc/allchblk.c:66-77 | The largest list number from which on enough bytes are free or allocated, or 0 |
| `BlockAllocators.BlockAllocator.FreeBlockEndingAt` | libs/gc/allchblk.c:327-352 | The free block that ends where a block begins, or 0 if there is none |
| `BlockAllocators.BlockAllocator.FreeHblk` | libs/gc/allchblk.c:828-889 | GC_freehblk joins the block to its free neighbours and counts its bytes; freeing a free block aborts and changes nothing |
| `BlockAllocators.BlockAllocator.FreeApart` | libs/gc/allchblk.c:846-888 | GC_freehblk between free neighbours that are unmapped: the block is listed by itself, and free blocks lie side by side until GC_merge_unmapped |
| `BlockAllocators.BlockAllocator.AddToHeap` | libs/gc/alloc.c:1030-1100 | GC_add_to_heap leaves out blocks 0 and 1 and the last block of the address space and frees the rest |
| `BlockAllocators.BlockAllocator.Conservation` | libs/gc/checksums.c:160-175 | Used bytes and GC_large_free_bytes add up to GC_heapsize after any sequence of operations |
| `MergeSteps.MergeOk` | libs/gc/allchblk.c:445-478 | A merged block never lands on a list that the walk has finished |
| `BlockAllocators.BlockAllocator.MergeUnmapped` | libs/gc/allchblk.c:423-481 | GC_merge_unmapped ends after one walk over the lists, with no free block left that could be joined to its successor, and without having joined any to more than the limit |
| `BlackLists.IsBlackListed` | libs/gc/blacklst.c:228-257 | GC_is_black_listed returns 0 if and only if the range is clean; otherwise no start before its result is clean; it agrees with the bit-by-bit scan |
| `HeaderIndex.LinkIn` | libs/gc/headers.c:225-250 | A new bottom index enters both sorted lists at its place |
| `HeaderIndex.AheadNext` | libs/gc/headers.c:343-366 | A jump over a used block or an index step skips no used block |
| `HeaderIndex.BehindNext` | libs/gc/headers.c:379-401 | A jump backwards skips no block start |
| `HeaderTables.HeaderTable.constructor` | libs/gc/headers.c:194-204 | The empty index agrees with the empty heap |
| `HeaderTables.HeaderTable.GetIndex` | libs/gc/headers.c:207-253 | get_index makes an index for an address and changes no header |
| `HeaderTables.HeaderTable.InstallHeader` | libs/gc/headers.c:258-268 | Exactly one entry of the index becomes the header |
| `HeaderTables.HeaderTable.RemoveHeader` | libs/gc/headers.c:291-296 | Exactly one entry becomes nil |
| `HeaderTables.HeaderTable.InstallCounts` | libs/gc/headers.c:274-288 | Exactly the entries of the later pages become forwarding counts, at most MAX_JUMP each |
| `HeaderTables.HeaderTable.RemoveCounts` | libs/gc/headers.c:300-306 | Exactly those entries become nil, also those of a new section, which are nil already |
| `HeaderTables.HeaderTable.NextUsedBlock` | libs/gc/headers.c:338-367 | The least used block at or after the address, or 0 if there is none |
| `HeaderTables.HeaderTable.PrevBlock` | libs/gc/headers.c:374-403 | The greatest block start at or before the address, or 0 if there is none |
| `HeaderTables.HeaderTable.ApplyToAllBlocks` | libs/gc/headers.c:310-331 | Every used block is visited exactly once |
| `HeaderTables.HeaderTable.Allocated` | libs/gc/allchblk.c:494-564 | The header calls of an allocation keep the index in agreement with the partition; the headers of the other blocks in use keep their sizes, and the new one gets the size asked for |
| `HeaderTables.HeaderTable.Freed` | libs/gc/allchblk.c:828-889 | So do those of a deallocation; the headers of the other blocks in use keep their sizes |
| `HeaderTables.HeaderTable.MergeNeighbours` | libs/gc/allchblk.c:858-888 | Joining a free block to its free neighbours keeps the agreement: headers that are absorbed go |
| `HeaderTables.HeaderTable.Absorb` | libs/gc/allchblk.c:445-478 | So does joining a free block to the one behind it, as GC_merge_unmapped does |
| `HeaderTables.HeaderTable.AddSection` | libs/gc/alloc.c:1049-1068 | So does a new section, which gets one header and no counts before it is freed |
| `HeaderTables.HeaderTable.Dropped` | libs/gc/allchblk.c:732-770 | So does giving up a black-listed block: every page gets a header for one block of memory |
| `HeaderTables.HeaderTable.FreeBlockEndingAt` | libs/gc/allchblk.c:327-352 | With the index alone, the free block that ends at the address |
| `HeaderTables.HeaderTable.FirstBlock` | libs/gc/misc.c:366-371 | Following forwarding counts ends at the first block of the object and never passes it |
| `HeaderTables.HeaderTable.Base` | libs/gc/misc.c:352-389 | GC_base returns the start of the object slot that contains the address, and 0 for addresses in no slot |
| `IndexedHeaps.IndexedHeap.AddToHeap` | libs/gc/alloc.c:1030-1068 | Free lists, partition and header index stay in order and in agreement when the heap grows, and blocks in use keep the sizes in their headers |
| `IndexedHeaps.IndexedHeap.Allocate` | libs/gc/allchblk.c:579-822 | So they do over a whole GC_allochblk, with the blocks it gives up on the way; which block is taken, and the limit for splitting, are as for AllocHblk; the header of what is returned has the size asked for, those of pages given up the size of one block, and those of blocks in use keep theirs; what leaves the free bytes is granted or counted as dropped |
| `IndexedHeaps.IndexedHeap.Free` | libs/gc/allchblk.c:828-889 | So they do over GC_freehblk, and every other block in use keeps the size in its header |
| `IndexedHeaps.IndexedHeap.FreeApart` | libs/gc/allchblk.c:846-888 | So they do when free neighbours are not merged because they are unmapped |
| `IndexedHeaps.IndexedHeap.MergeUnmapped` | libs/gc/allchblk.c:423-481 | So they do over GC_merge_unmapped, which starts where free blocks lie side by side, leaves no mergeable pair, joins none over the limit, and leaves the headers of blocks in use as they are |
| `IndexedHeaps.IndexedHeap.Base` | libs/gc/misc.c:352-389 | GC_base, answered from the index, is right about the blocks the allocator has handed out |
| `ObjectBase.SlotUnique` | libs/gc/misc.c:352-389 | At most one slot contains an address |
| `SmallObjects.Heap.BuildFlClear2` | libs/gc/new_hblk.c:30-47 | The free list of cleared two-word objects |
| `SmallObjects.Heap.BuildFlClear4` | libs/gc/new_hblk.c:50-67 | The free list of cleared four-word objects |
| `SmallObjects.Heap.BuildFl2` | libs/gc/new_hblk.c:70-83 | The free list of two-word objects |
| `SmallObjects.Heap.BuildFl4` | libs/gc/new_hblk.c:86-104 | The free list of four-word objects |
| `SmallObjects.Heap.BuildFl` | libs/gc/new_hblk.c:109-167 | Every builder leaves the same block: objects linked from the last to the first, the first linked to the old list, all other words cleared or untouched |
| `SmallObjects.BuiltUnique` | libs/gc/new_hblk.c:109-167 | That description leaves no choice for any word of the memory |
| `SmallHeap.WriteOk` | libs/gc/malloc.c:103-134 | What a client writes to its objects cannot damage a free list |
| `SmallHeap.TakeOk` | libs/gc/mallocx.c:371-391 | Taking a prefix of a free list keeps all slots accounted for |
| `SmallHeap.GiveOk` | libs/gc/malloc.c:466-513 | Freeing keeps all slots accounted for, and free objects of cleared kinds clear |
| `SmallHeap.AddedOk` | libs/gc/new_hblk.c:176-196 | So does a new block, for the free list or for the client |
| `SmallHeap.Apart` | libs/gc/malloc.c:103-134 | Objects that clients hold share no word with each other or with free objects |
| `SmallHeap.Allocated` | libs/gc/malloc.c:124-127 | An allocated object is not held by the client already, lies in memory, and is clear if its kind is |
| `SmallAllocator.Allocator.NewHblk` | libs/gc/new_hblk.c:176-196 | A new block is made a free list in front of the old one; if there is none nothing changes |
| `SmallAllocator.Allocator.Malloc` | libs/gc/malloc.c:103-134 | The head of the free list goes to the client; 0 is returned only if the list is empty and there is no new block |
| `SmallOnHeap.ObjectHeap.Malloc` | libs/gc/malloc.c:103-134 | Small objects on the block allocator: the head of the free list if there is one, and then no page is asked for; otherwise GC_new_hblk asks GC_allochblk for a page, and the result is 0 if and only if none is granted, with the whole heap to be used and no black-list test only if no block is free; a new object was not held, and its words lie in a block of one page that the block allocator has given to objects of its kind and size |
| `SmallOnHeap.ObjectHeap.Expand` | libs/gc/alloc.c:1030-1068 | The heap grows by exactly the usable pages, as one block that is freed, and the blocks of small objects stay as they are |
| `SmallOnHeap.ObjectHeap.InNoOtherBlock` | libs/gc/new_hblk.c:176-196 | No word of a small object lies in another block of the heap |
| `SmallAllocator.Allocator.CutPrefix` | libs/gc/mallocx.c:371-386 | The shortest prefix that amounts to a block, or the whole list, is cut off |
| `SmallAllocator.Allocator.MallocMany` | libs/gc/mallocx.c:371-416 | GC_generic_malloc_many returns a chain of distinct objects of the right kind and size that no client held, and counts their bytes |
| `SmallAllocator.Allocator.Free` | libs/gc/malloc.c:466-513 | The object becomes the head of the list of its kind and size, cleared if its kind is, and is no longer held; the null pointer changes nothing |
| `SizeMap.BlockFitOk` | libs/gc/misc.c:209-215 | Fitting the size to the block never makes objects smaller, nor larger by half, and keeps the number of objects in a block |
| `SizeMap.RoundedOk` | libs/gc/misc.c:190-219 | The size that is entered serves the request, is at most half a block, and is at most twice the smallest request it is entered for, up to three granules |
| `SizeMap.ChosenOk` | libs/gc/misc.c:177-219 | The interval that is filled contains i, lies in the array, and filling it with the chosen size keeps every filled section at least a quarter of its end long, every entry able to serve its request, and the sizes modest |
| `SizeMap.SizeTable.constructor` | libs/gc/misc.c:158-173 | GC_init_size_map enters for every size that has a free list of its own the least number of granules that serves it, which is less than TINY_FREELISTS, for size 0 one granule, and nothing for larger sizes |
| `SizeMap.SizeTable.Choose` | libs/gc/misc.c:183-203 | The lowest entry to fill is the first empty one from a quarter below the size on, or from an eighth below if the entry there is filled, in which case the size grows to an eighth above the least for that entry; it is at or before i |
| `SizeMap.SizeTable.Extend` | libs/gc/misc.c:179-224 | GC_extend_size_map fills an interval that contains i with one size that serves all its requests, within the array |
| `Exclusions.OverlapTest` | libs/gc/mark_rts.c:418-422 | The test on one entry, which the source calls incomplete, decides whether the new range overlaps any |
| `Exclusions.InsertedOk` | libs/gc/mark_rts.c:423-442 | Inserting or extending keeps the table sorted and disjoint and excludes exactly the new range in addition |
| `Exclusions.ExclusionTable.NextExclusion` | libs/gc/mark_rts.c:388-406 | The binary search finds the first range that ends after the address |
| `Exclusions.ExclusionTable.Exclude` | libs/gc/mark_rts.c:410-443 | GC_exclude_static_roots_inner: aborts for an overlap if and only if there is one; for a full table the last entry is first written to the memory behind the table, exactly if some range begins after the new one; otherwise exactly the new range is added, as an entry of its own unless some range begins at its end |
| `Exclusions.OverrunFullTable` | libs/gc/mark_rts.c:423-442 | Two calls on a table for one range, the second of which writes behind it before it aborts |
| `Exclusions.ExclusionTable.PushConditionalWithExclusions` | libs/gc/mark_rts.c:462-476 | The ranges that are pushed cover exactly what is not excluded, each address once |
| `RootPages.RootPusher.PushSelected` | libs/gc/mark.c:1328-1366 | GC_push_selected pushes every selected page of an area once, in ascending order: page by page, or, once the stack is three quarters full, the rest of the area as one entry; so it adds at most two entries to a stack that is fuller than that |
| `RootPages.RootPusher.PushAreas` | libs/gc/mark_rts.c:737-741 | Area by area, the selected pages are pushed once and in ascending order, each piece as PushSelected says, and the stack never holds more than two entries an area beyond the bound |
| `RootPages.SelectedRootsFit` | libs/gc/mark.c:337-356 | With fewer areas than an eighth of the initial mark stack GC_push_all does not abort while dirty pages are rescanned |
| `FinalizeModel.MarkedByChains` | libs/gc/finalize.c:560-580 | Without overflow, the marking phase of GC_finalize marks exactly what chains of pointers from unmarked registered objects reach |
| `FinalizeModel.ExactUnlessOverflow` | libs/gc/finalize.c:560-613 | The objects left unmarked are exactly those that no such chain reaches, if and only if every entry at which the mark stack overflows, which is a function of the first state, the table and the answers to GC_mark_some, is one that a chain reaches |
| `FinalizeModel.RoomNoOverflow` | libs/gc/include/private/gc_pmark.h:430-440 | A mark stack with more entries than there are unmarked objects does not overflow for any registered object |
| `FinalizeModel.ExactIfRoom` | libs/gc/finalize.c:560-613 | If it has that many when GC_finalize begins, exactly the deserving objects are left unmarked |
| `FinalizeModel.OverflowDelays` | libs/gc/include/private/gc_pmark.h:421-440 | An object that deserves finalization, but for which the mark stack overflows; when the loop is done it is marked, so it is not enqueued |
| `FinalizeModel.OrderIrrelevant` | libs/gc/finalize.c:560-613 | Which objects deserve finalization does not depend on the order of the hash table |
| `FinalizeModel.LastStepQuiet` | libs/gc/finalize.c:522-530 | A mark phase that has just ended is one finalization can start from, if and only if stray words refer only to objects that are marked all the same |
| `FinalizeModel.EnqueuedClosed` | libs/gc/finalize.c:586-613 | When the enqueued objects have been marked, the marks are closed again if and only if none of them was registered with the procedure that marks nothing and refers to something unmarked |
| `Finalization.RunMarkProc` | libs/gc/finalize.c:248-295 | Each mark procedure pushes exactly the pointers by which its chains may start |
| `Finalization.Drain` | libs/gc/include/private/gc_pmark.h:432-434 | The loop of GC_MARK_FO that empties the mark stack ends, in the state that decides about overflow |
| `Finalization.Rescue` | libs/gc/include/private/gc_pmark.h:435-438 | After an overflow the object is marked and marking is carried to its end |
| `Finalization.MarkFo` | libs/gc/include/private/gc_pmark.h:430-440 | GC_MARK_FO marks exactly what the starts of the procedure reach, or, after an overflow, what the object itself reaches; it reports an overflow exactly when the mark procedure and the emptying of the stack lead to MS_INVALID |
| `Finalization.QueueExactUnlessOverflow` | libs/gc/finalize.c:560-613 | ExactUnlessOverflow and ExactIfRoom for the queue |
| `Finalization.Finalizers.MarkFinalizable` | libs/gc/finalize.c:560-580 | The loop over the table handles every entry once, and reaches the state that the entries and the answers determine |
| `Finalization.Finalizers.EnqueueUnmarked` | libs/gc/finalize.c:586-613 | Exactly the unmarked entries move from the table to the queue, and their objects are marked |
| `Finalization.Finalizers.Finalize` | libs/gc/finalize.c:522-697 | GC_finalize as a whole: links to unmarked objects are cleared; the queue grows by exactly the deserving objects if and only if the stack overflows only for objects on chains, and whenever there is room for all unmarked objects; links in objects that are gone are removed |
| `Finalization.Finalizers.CollectAndFinalize` | libs/gc/alloc.c:412-470 | GC_try_to_collect_inner with GC_finalize at its end, from any state between collector steps: after marking the marks are the least closed set around the roots and the objects whose marks are kept, then Finalize as above, and the marks are fit for an incremental collector to go on from if no enqueued object registered with the procedure that marks nothing refers to something unmarked |
| `Finalization.Finalizers.RegisterLink` | libs/gc/finalize.c:146-210 | A link is registered, updated or refused as the map of links says, and refused without a change exactly if it is not aligned or null, or no table can be had; the table grows exactly if it is full |
| `Finalization.Finalizers.UnregisterLink` | libs/gc/finalize.c:212-243 | A link is removed from the map; the null table is read if and only if the link is aligned and nothing was ever registered |
| `Finalization.UnregisterFirst` | libs/gc/finalize.c:212-243 | A fresh table: unregistering any aligned link reads the null table |
| `Finalization.Finalizers.RegisterFinalizer` | libs/gc/finalize.c:302-423 | A finalizer is registered, replaced or removed as the map says; it aborts, without a change, exactly if no table can be had; the table grows exactly if it is full |
| `ChainTables.Table.Find` | libs/gc/finalize.c:164-175 | The walk along a chain finds the entry for a key if and only if there is one |
| `ChainTables.Table.Grow` | libs/gc/finalize.c:99-134 | GC_grow_table rehashes every entry into its chain and keeps all of them |
| `ChainTables.Table.Register` | libs/gc/finalize.c:146-210 | Keys stay unique and nothing is lost although the lock is given up for the out-of-memory callback, which may register, unregister and grow |
| `ChainTables.Table.Unregister` | libs/gc/finalize.c:212-243 | Exactly one entry is removed, if there is one |
| `ChainTables.Table.RemoveWhere` | libs/gc/finalize.c:536-556 | The sweep of all chains removes exactly the entries that are to go |
| `ChainTables.Table.Traverse` | libs/gc/finalize.c:560-580 | The loop over all chains meets every entry once |
| `ChainTables.Table.Remove` | libs/gc/finalize.c:225-238 | Unlinking an entry keeps every chain and the number of entries |
| `Specific.StepInv` | libs/gc/specific.c:49-130 | Every load and store of every thread, and every handing out and giving up of quick thread ids, keeps the invariant: from the head of its bucket, and from any entry a reader stands on, unlinked or not, the walk leads to every live entry linked before |
| `Specific.RunInv` | libs/gc/specific.c:49-130 | The invariant holds in every state of every interleaving |
| `Specific.OwnValueFound` | libs/gc/specific.c:109-130 | A call of getspecific returns the value its own thread has set, and NULL if and only if it has set none or removed it, although thread ids and quick thread ids are used again |
| `Specific.SeenMine` | libs/gc/specific.c:71-120 | A walk meets no entry that its thread removed earlier, be it in an earlier life of the thread id |
| `Specific.WalksEnd` | libs/gc/specific.c:115-120 | Every step of a walk leads to an older entry, so every walk ends |
| `Specific.CacheHit` | libs/gc/include/private/specific.h:79-90 | A cache entry whose quick thread id matches is the entry of the calling thread, also when that id belonged to another thread before |
| `Specific.NextGetHits` | libs/gc/specific.c:109-130 | What a call of getspecific has found the slow way is found in the cache by the next call with the same quick thread id, if no other thread has used the slot meanwhile |
| `Specific.GivenStays` | libs/gc/specific.c:49-106 | The value a thread has set changes by its own setspecific and remove_specific only |
| `Specific.RemoveCrashesIff` | libs/gc/specific.c:71-106 | The walk of remove_specific ends in the use of a null entry if and only if its thread has no value in the table |
| `Specific.RemoveTooEarly` | libs/gc/specific.c:71-106 | A run of one thread that does so |

## Left out

- SmallAllocator.Allocator.Malloc: collection and sweeping, with which GC_allocobj may also fill a free list, are one choice of the caller between a new block and none.
- SmallAllocator.Allocator.MallocMany: reclaiming a block for the batch, and the last attempt with a single object, which is Malloc.
- SmallAllocator.Allocator.Free: large objects, which go to GC_freehblk (BlockAllocators.BlockAllocator.FreeHblk).
- HeaderTables.HeaderTable.GetIndex: the top-level hash chains of HASH_TL are a map from keys to bottom indices; only the two sorted lists are modelled as links.
- BlockAllocators.BlockAllocator.MergeUnmapped: which blocks are mapped, and remapping; every pair of adjacent free blocks is taken to be mergeable unless its size overflows.
- BlockAllocators.BlockAllocator.AddToHeap: the table of heap sections and its limit, and the growth of the header space.
- Finalization.Finalizers.RegisterFinalizer: reporting the previous finalizer to the caller.
- Finalization.Finalizers.Finalize: Java finalization order (GC_java_finalization) and GC_enqueue_all_finalizers.
- RangeScan.RangeMarker.MarkFrom: bitmap, procedure, per-object and precise descriptors; what PUSH_CONTENTS pushes for a pointer is an input.
- RangeScan.RangeMarker.MarkTop: ranges of 4 GB and more under parallel marking, for which ShareInsideIff shows that the scan leaves the range.
- CollectorState.Collector.MarkRound: entries with other than length descriptors; the sharing of long ranges is in RangeScan and ParallelMark.
- CollectorState.Collector.MarkFromMarkStack: entries with other than length descriptors, likewise.
- CollectorState.Collector.PushRoots: pushing an area page by page, which is RootPages.RootPusher.PushSelected.
- MarkTermination.MarkSomeNoAbort: heaps with more static root areas than half the initial mark stack, where the source aborts; areas pushed page by page, for which RootPages.SelectedRootsFit has a bound of its own.
- MarkTermination.MarkSomeCloser: that a larger mark stack can be allocated; Stuck names the calls for which it must be.
- MarkRuns.StoppedMarkSafe: objects that are reachable through stray words only, which may be missed (StrayWords.StrayWordMissed).
- Finalization.Rescue: marking with the program running and able to change objects; the allocation lock keeps it from revealing pointers, as under Assumptions.
- Finalization.MarkFo: marking with the program running, likewise.
- Finalization.Finalizers.CollectAndFinalize: collections that are not full, after which a stray word may refer to an unmarked object; LastStepQuiet says exactly when GC_finalize may still start from them.
- ParallelProgress.NeverFruitless: the bound is not the least one; ranges of 4 GB and more; builds with SMALL_CONFIG.
- ParallelPhase.RunGivesAnswer: ranges of 4 GB and more, and builds with SMALL_CONFIG, where entries are lost and nothing is marked.
- ParallelMark.StepInv: entries with other than length descriptors; half the size of a range is taken to fit in an int, and RangeScan has the exact condition.
- ParallelEnds.ParallelMarkReturns: how many steps it takes.
- SmallOnHeap.ObjectHeap.Malloc: sweeping and collection, as for SmallAllocator.Allocator.Malloc; freeing and the other operations of the small allocator, which do not touch pages.
- BlockAllocators.BlockAllocator.FreeApart: which blocks are unmapped; none of the neighbours is merged.
- IndexedHeaps.IndexedHeap.FreeApart: likewise.
- BlockAllocators.BlockAllocator.AllocHblk: remapping of unmapped blocks, and the refusal to split when finalizers freed little, which is an input.
- GC_push_marked1, GC_push_marked2 and GC_push_marked4: faster forms of the loop in GC_push_marked.
- GC_push_selected inside GC_mark_some: GC_page_was_dirty is true of every page without a header (libs/gc/os_dep.c:2628), so all static data are pushed; MarkModel pushes them as one entry for each area, RootPages page by page.
- GC_promote_black_lists: swaps and clears tables; adds no property of the search.
- Pointers that are not word-aligned inside objects, interior-pointer offsets, and GC_valid_offsets.
- Hardware memory order, prefetching and wall-clock time limits.
- Page protection, signals and the /proc interface behind the dirty bits (os_dep.c): dirty bits are exact.
- Sweeping (reclaim.c), thread-local allocation, stubborn and gcj objects, debugging and statistics.
- Failure of header allocation, which the source documents as leaking.
- The C++ headers in include/ironclad: single checked accesses.
