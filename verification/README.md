# Sorting, counting and request protocols

This project models the hard core of a collection of system-programming examples and proves it correct:

- the in-place sorting library in `posix/lib` (flashsort with its metrics and the generator of their digit table, binary
  and ternary heapsort, mergesort, insertion sort, and the parallel sort built on them);
- four concurrent protocols from `posix/ipc` and `posix/threads` (a worker behind a message queue, a striped
  reader/writer lock made of semaphores, a handshake over shared memory and signals, a counter behind mutexes);
- an in-place tokeniser and message framing over a byte stream from `posix/lib`;
- carry arithmetic (`posix/c/arithmetic.c`) and Simpson's rule (`akka/scala/SimpsonIntegration.scala`).

`dafny verify dfyconfig.toml` checks everything.

## How the programs are modelled

**Sequential code** that works in place is a method over arrays, with the loops, branches and constants of the C code.
Elements are of an abstract type with a comparator `cmp`; `base` and `nmemb` become an array, an offset `lo` and a length,
and every sort also promises to leave the rest of the array alone. Each such method is proved against a specification:

- `StableSorting.StableSort` is the one result that a stable sort can have (`StableSortCharacterised`); insertion sort,
  mergesort and the parallel sort with stable parts compute exactly it, for any comparator that is a total preorder.
- The heapsorts and flashsort return a sorted permutation. `HeapOrder` proves the heap argument once for any number of
  children.
- Flashsort's permutation loop is proved with an invariant (`FlashPermutation.Filling`) about the set of slots that are
  already filled: `Room` shows that the class of the element in hand still has a free slot, so that `l[k]-1` never leaves
  the class, and `Scan` that comparing `j` with `l[k]` finds the next unfilled slot.

**Concurrent code** is a relation between states, with one step for each access to shared data, and all interleavings.
`Inv` is kept by every step of every process; what holds of reachable states follows from it. The number of processes,
requests, stripes, units and characters are parameters.

- `ParallelSort` (posix/lib/psort.c): local sort, barrier rounds and merges. The local sort is any that leaves an
  acceptable result behind (`good`), and it may write anything into its own segment while it runs. One step reads the
  two descriptors that a merge needs; `TouchDisjoint` shows that no other thread touches them.
- `SemaphoreWorker` (posix/ipc/semaphore.c): System V message queue of bounded capacity, semaphore, `wait()`.
  `SemaphoreProgress` has the length of runs and the deadlocks, and `SemaphoreCrashes` adds crashing clients.
- `StripedCounter` (posix/ipc/shared-memory-count-output-semaphore.c, shared-memory-count.c): `counter[c]++` is a read and a
  write; any process may crash at any step, and the kernel undoes its semaphore operations. `StripedCounterReports` and
  `StripedCounterProgress` hold what follows for the counts and reports, and for progress.
- `ShortThreads` (posix/threads/thread-memory-count-shorts-mutex.c): every thread reads its file in chunks of any sizes, and
  the main thread starts the threads, prints under the output mutex and joins them. A read brings the pairs that
  `ShortCount.Round`, the loop of the thread, is proved to lock. The whole refines `StripedCounter` with one stripe for
  each value; its crash step is not used, since a mutex is not given back by a crash.
- `SharedMemoryHandshake` (posix/ipc/shared-memory.c): every read and write of the shared memory is a step; SIGUSR1 is one
  pending bit for each side.

**Metrics** are exact real numbers; the constants (0.42, 1e-9, 256, 65536, 2^16) are those of the program.

Properties that hold only under a condition are stated with the exact condition: `SemaphoreProgress.DeadlockFreeIff`
(capacity of the queue), `SemaphoreProgress.OnlyRepliesIff` (fewer clients than the worker's message type),
`SemaphoreCrashes.CrashBoundIff` (crashing clients), `SharedMemoryHandshake.AllHandledIff` (requests),
`Metrics.OrdersStringsIff`, `FMetricTable.TableOrdersIff` and `PrintedTable.PrintedOrdersIff` (digits, exact shares and
printed decimals that order strings), `Arithmetic.ExactIff` and `Arithmetic.DifferenceExactIff` (carries) and
`Simpson.ExactIff` (degrees). `SharedMemoryHandshake.QuitMayOvertake`, `FMetricTable.UncountedByteCollides` and
`PrintedTable.RoundingInverts` give runs and inputs that show what does not hold.

The comments of `scripts/calculate-fmetric` argue about exact shares. What the script prints has 14 decimals, and there the
argument can fail: `RoundingInverts` gives such counts. The table in `posix/lib/fsort-metrics.c` is what the script prints
for the counts it holds (`ShippedPrinted`), and it is not affected (`ShippedOrders`).

Values are fixed by the bytes that go in, not only by round trips: `Transmission.HeaderBytes` and `ParseBytes`,
`Metrics.StrFullNumber`, `ShortThreads.ThreadCounts`, `SplitToArray.Split` and `PrintedTable.ShippedShare`.

## Model

| member | source | states |
|---|---|---|
| StableSorting.StableSortUnique | posix/lib/isort.c:40-65 | two sorted sequences that keep the order of equivalent elements are equal: there is only one stable sort |
| StableSorting.StableSortCharacterised | posix/lib/msort.c:40-80 | the specification used for the stable sorts is that result: sorted, and equivalent elements in their old order, if and only if equal to it |
| StableSorting.MergeOfSorts | posix/lib/msort.c:57-78 | merging the stable sorts of two adjacent parts, left one first on ties, is the stable sort of both |
| StableSorting.MergeClass | posix/lib/msort.c:65-75 | taking the left element on ties keeps the order of equivalent elements |
| InsertionSorting.MergeOne | posix/lib/isort.c:44-53 | inserting before the first greater element is merging the element in |
| InsertionSorting.FindPlace | posix/lib/isort.c:44-52 | the inner loop finds the first greater element below i, or i |
| InsertionSorting.InsertNext | posix/lib/isort.c:43-63 | one round makes the first i+1 slots the merge of the first i and element i, and changes no other slot |
| InsertionSorting.ISortR | posix/lib/isort.c:27-65 | the array becomes the stable sort of itself; nothing outside changes |
| MergeSorting.MergeAdjacent | posix/lib/msort.c:45-78 | two adjacent runs become their merge, through the scratch buffer and back |
| MergeSorting.MergedBlocks | posix/lib/msort.c:44-79 | merging the pair of blocks at start_left turns them into one sorted block and keeps all others |
| MergeSorting.LastBlock | posix/lib/msort.c:44-44 | what remains behind the last pair, at most one block, is already sorted |
| MergeSorting.Pass | posix/lib/msort.c:40-79 | a round turns sorted blocks of length step into sorted blocks of twice the length |
| MergeSorting.MSortR | posix/lib/msort.c:27-81 | the array becomes the stable sort of itself, for any length; nothing outside changes |
| HeapOrder.RootIsMax | posix/lib/hsort.c:107-111 | the first element of a heap with any number of children is a maximum |
| HeapOrder.SiftStep | posix/lib/ternary-hsort.c:61-64 | exchanging root with its largest child moves the only possible violation to that child |
| HeapOrder.SwapDown | posix/lib/hsort.c:63-66 | the exchange of a sift turn in place: permutation, and a heap but for the child |
| HeapOrder.ExtractStep | posix/lib/hsort.c:107-109 | moving the maximum behind the heap extends the sorted part and leaves a heap but for its root |
| HeapOrder.ExtractKeeps | posix/lib/hsort.c:110-110 | sifting within the shortened heap keeps everything in it below the sorted part |
| BinaryHeapSort.ChildrenOf | posix/lib/hsort.c:18-32 | the index functions describe the two children, and the parent, of every node |
| BinaryHeapSort.Largest | posix/lib/hsort.c:47-62 | the comparisons of a turn find the largest of root and its children below the limit |
| BinaryHeapSort.SiftDown | posix/lib/hsort.c:35-71 | restores the heap on start..max_index when only start may violate it, by a permutation within it |
| BinaryHeapSort.Heapify | posix/lib/hsort.c:73-85 | any array becomes a heap by a permutation |
| BinaryHeapSort.ExtractMax | posix/lib/hsort.c:107-111 | a turn keeps: heap in front, sorted part behind, nothing in front greater than anything behind |
| BinaryHeapSort.HSortR | posix/lib/hsort.c:96-112 | sorted permutation; nothing outside changes |
| TernaryHeapSort.ChildrenOf | posix/lib/ternary-hsort.c:18-21 | the index macros describe the three children, and the parent, of every node |
| TernaryHeapSort.Largest | posix/lib/ternary-hsort.c:37-59 | the nested comparisons find the largest of root and its up to three children |
| TernaryHeapSort.TernarySiftDown | posix/lib/ternary-hsort.c:24-69 | restores the heap on start..max_index when only start may violate it, by a permutation within it |
| TernaryHeapSort.TernaryHeapify | posix/lib/ternary-hsort.c:71-82 | any array becomes a heap by a permutation |
| TernaryHeapSort.TernaryHSortR | posix/lib/ternary-hsort.c:93-109 | sorted permutation; nothing outside changes |
| FlashSort.CalculateKMonotone | posix/lib/fsort.c:44-55 | the class number grows with the value, for every factor that is not negative |
| FlashSort.CalculateKInteger | posix/lib/fsort.c:44-55 | the class number is the integer part of the product plus 1e-9, cut off at 0 and lsize-1 |
| FlashSort.ExtremesClasses | posix/lib/fsort.c:100-104 | the least element falls into the first class and the greatest into the last |
| FlashSort.MetricOrdersClasses | posix/lib/fsort.c:100-111 | with a metric that agrees with the comparator, elements of lower classes are not greater |
| FlashSort.FindExtremes | posix/lib/fsort.c:82-94 | finds a least and a greatest element, and the index of the greatest |
| FlashSort.Histogram | posix/lib/fsort.c:106-111 | counts the elements of every class |
| FlashSort.CountClasses | posix/lib/fsort.c:106-122 | ll holds the number of elements below each class, and l the end of each class |
| FlashPermutation.Room | posix/lib/fsort.c:141-146 | the class of an element not yet in place has a free slot, within the class |
| FlashPermutation.Move | posix/lib/fsort.c:142-146 | a move fills one more slot, with an element of its class, and is a permutation |
| FlashPermutation.Scan | posix/lib/fsort.c:132-135 | when all slots below j are filled, j >= l[k] tells exactly whether slot j is filled |
| FlashPermutation.FindLeader | posix/lib/fsort.c:132-135 | the scan stops within the array, at the first slot that is not filled |
| FlashPermutation.FollowCycle | posix/lib/fsort.c:137-147 | following a cycle from its leader ends, fills as many slots as it makes moves, and fills the leader's own slot |
| FlashPermutation.Finished | posix/lib/fsort.c:131-131 | nmemb-1 moves are enough: the element left over is in its class |
| FlashPermutation.Permute | posix/lib/fsort.c:127-148 | the loop ends with every class in its slots, by a permutation, for any class function |
| FlashSort.SortClassAt | posix/lib/fsort.c:152-164 | sorting one class extends the sorted prefix and keeps all classes in place |
| FlashSort.SortClasses | posix/lib/fsort.c:150-165 | sorting each class sorts the whole; the error branch "wrong order" is dead |
| FlashSort.FSortF | posix/lib/fsort.c:57-171 | sorted permutation, for every metric that agrees with the comparator and tells least from greatest; nothing outside changes |
| Metrics.StrCmpPreorder | posix/lib/fsort-metrics.c:226-238 | the order of strings as unsigned characters is a total preorder |
| Metrics.ExpandMonotone | posix/lib/fsort-metrics.c:232-236 | an expansion with spaced digits is strictly monotone in string order, whatever the lengths |
| Metrics.ExpandAgrees | posix/lib/fsort-metrics.c:226-238 | such a metric decides less and equal exactly as strcmp does |
| Metrics.OrdersStringsIff | posix/lib/fsort-metrics.c:247-259 | an expansion orders all strings if and only if no digit is 0 and each step, times base-1, is at least the greatest digit |
| Metrics.Accumulate | posix/lib/fsort-metrics.c:230-237 | the loop that updates result and factor computes the expansion |
| Metrics.StrFullFirst | posix/lib/fsort-metrics.c:232-236 | the first byte counts in full, everything behind it 256 times less |
| Metrics.NumberDigits | posix/lib/fsort-metrics.c:232-236 | the number of a string has the bytes of the string as its digits to base 256, the highest first |
| Metrics.StrFullNumber | posix/lib/fsort-metrics.c:227-238 | metric_str_full of n bytes, times 256^(n-1), is that number |
| Metrics.StrFullOrders | posix/lib/fsort-metrics.c:226-238 | metric_str_full decides less and equal exactly as strcmp does |
| Metrics.MetricStrFull | posix/lib/fsort-metrics.c:227-238 | the loop of metric_str_full computes that number over 256^(n-1), and 0 for the empty string |
| Metrics.FullSpaced | posix/lib/fsort-metrics.c:227-238 | its digits are spaced, so that it orders strings as strcmp does |
| FMetricTable.MinWeightLeast | scripts/calculate-fmetric:82-94 | the ceiling division yields the least weight v with v times 2^16 not below the total of all weights |
| FMetricTable.MinimalWeight | scripts/calculate-fmetric:69-94 | the script's counting loops and division compute that v |
| FMetricTable.PreferredCounts | scripts/calculate-fmetric:99-109 | printable bytes keep their count, all others get v |
| FMetricTable.Factors | scripts/calculate-fmetric:131-163 | the running sums over their total are each byte's share of the weights below it; this is the value before it is printed |
| FMetricTable.CalculateFMetric | scripts/calculate-fmetric:69-167 | the script as a whole: the minimal v, the exact shares of the preferred weights, and their decimals as printed |
| FMetricTable.TableSpaced | scripts/calculate-fmetric:82-94 | if every weight is at least v and v times 2^16 not below the total, the exact shares of bytes 1..255 are at least 1/2^16 apart |
| FMetricTable.GeneratedTableSpaced | scripts/calculate-fmetric:82-94 | the argument in the script's comments, which is about exact shares: they are spaced when each printable count is at least v |
| FMetricTable.GeneratedTableAgrees | scripts/calculate-fmetric:82-94 | with these exact shares, before printing, the metric decides less and equal exactly as strcmp does |
| FMetricTable.TableOrdersIff | posix/lib/fsort-metrics.c:247-259 | exact shares order all strings if and only if byte 0 has weight and (2^16-1) times each weight plus that of byte 255 is at least the total |
| FMetricTable.GeneratedHeavy | scripts/calculate-fmetric:93-109 | generated weights meet that condition when each printable count is at least v |
| FMetricTable.PrintFactors | scripts/calculate-fmetric:160-163 | each printed decimal is the share rounded to 14 places |
| PrintedTable.PrintedOrdersIff | posix/lib/fsort-metrics.c:247-259 | printed decimals order all strings if and only if that of byte 1 is not 0 and each step, times 2^16-1, is at least the decimal of byte 255 |
| PrintedTable.MarginSuffices | scripts/calculate-fmetric:160-163 | weights that exceed the condition for exact shares by what rounding can take away print a table that meets the condition for decimals |
| PrintedTable.GeneratedPrintedOrders | scripts/calculate-fmetric:93-163 | so the printed table of any counts orders strings when each printable count is at least v and the slack left by v and the count of byte 255 covers the rounding |
| PrintedTable.RoundingInverts | scripts/calculate-fmetric:160-163 | without that slack it need not: counts with v = 1 and none below v, for which every rounding puts 04 FF FF FF above 05 |
| PrintedTable.ScriptTotals | scripts/calculate-fmetric:7-94 | for the counts in the script v is 4671, of 305660783 printable bytes |
| PrintedTable.ShippedPrinted | scripts/calculate-fmetric:7-163 | the 256 decimals of the library are what the script prints for its counts |
| PrintedTable.ShippedShare | posix/lib/fsort-metrics.c:193-259 | the metric of a single byte is within 0.52 units of the 14th decimal of the share of the weights below it |
| PrintedTable.ShippedOrders | posix/lib/fsort-metrics.c:193-224 | with the 256 decimals of the library, metric_binary_printable_pref orders all strings exactly as strcmp does |
| FMetricTable.UncountedByteCollides | scripts/calculate-fmetric:160-163 | a byte of weight 0 and its successor get the same digit: two different strings with equal metrics |
| FMetricTable.PrintablePrefFirst | posix/lib/fsort-metrics.c:252-257 | the first byte counts with its factor, everything behind it 65536 times less |
| FMetricTable.MetricBinaryPrintablePref | posix/lib/fsort-metrics.c:247-259 | the loop computes the expansion of the table's digits to base 65536 |
| StringFlashSort.MetricFits | posix/lib/fsort.c:34-42 | a metric that orders strings satisfies all that flashsort asks of a metric |
| StringFlashSort.SortStringsFull | posix/lib/fsort-metrics.c:227-238 | flashsort with metric_str_full sorts any strings as strcmp orders them |
| StringFlashSort.SortStringsTable | posix/lib/fsort-metrics.c:247-259 | flashsort with the table metric does so for the exact shares of all weights that meet the condition |
| StringFlashSort.SortStringsPrinted | posix/lib/fsort-metrics.c:247-259 | and for every table of printed decimals that meets its own condition |
| StringFlashSort.SortStringsShipped | posix/lib/fsort-metrics.c:193-259 | flashsort with the table metric of the library sorts any strings as strcmp orders them |
| ParallelSort.Partition | posix/lib/psort.c:189-215 | contiguous segments that cover the array, each of nmemb/thread_count elements or one more, also with more threads than elements |
| ParallelSort.StepKeepsInv | posix/lib/psort.c:51-162 | every step keeps: each group whose leader's index is a multiple of the round's width covers exactly its segments' slots, sorted or being merged |
| ParallelSort.LeaderHalves | posix/lib/psort.c:104-117 | a thread that decides to merge leads a group of two halves of its step's width, which cover adjacent slots and are sorted |
| ParallelSort.MergeComplete | posix/lib/psort.c:120-149 | when the merge loop ends, the buffer holds an acceptable sort of the group's input |
| ParallelSort.KeepOpen | posix/lib/psort.c:95-100 | when the barrier opens, all other threads wait at it, every group of the old width is sorted in place, and groups of twice the width take over |
| ParallelSort.TouchDisjoint | posix/lib/psort.c:68-153 | in every reachable state no two threads may touch the same slot or the same descriptor |
| ParallelSort.WritesOnlyTouched | posix/lib/psort.c:68-153 | a step changes nothing but what its thread may touch |
| ParallelSort.BarrierDistance | posix/lib/psort.c:95-100 | threads are never more than one barrier apart, and at the end all have waited equally often, as often as step doubles |
| ParallelSort.NoDeadlock | posix/lib/psort.c:95-158 | until all threads are done some thread can step: none is left behind at a barrier |
| ParallelSort.StepDecreases | posix/lib/psort.c:95-158 | every step, in any interleaving, leaves less to do |
| ParallelSort.PSortCorrect | posix/lib/psort.c:164-240 | every run is bounded, goes on until all are done, and then the whole array is acceptably sorted in place, so that nothing is copied back |
| ParallelSort.PSortStable | posix/lib/psort.c:81-86 | with stable local sorts, any number of threads and any interleaving compute the one stable sort |
| ParallelSort.PSortSorts | posix/lib/psort.c:68-90 | with any correct local sort the result is a sorted permutation |
| SemaphoreWorker.StepKeepsInv | posix/ipc/semaphore.c:144-245 | every step keeps: each waiting client has exactly one message in flight, its request or the reply to it |
| SemaphoreWorker.QueueBound | posix/ipc/semaphore.c:98-109 | before the shutdown, the messages in the queue and the one at the worker are at most the limit of the semaphore |
| SemaphoreWorker.HolderBound | posix/ipc/semaphore.c:190-216 | the value of the semaphore and the clients between its two operations add up to the limit |
| SemaphoreWorker.ReceivesSquares | posix/ipc/semaphore.c:188-220 | client i's k-th receive is exactly the reply with k*k, and a client that exits has had all r of them |
| SemaphoreWorker.QuitIsLast | posix/ipc/semaphore.c:233-244 | 'Q' is sent only when the queue is empty, the worker idle, and every client has exited |
| SemaphoreWorker.KeepReap | posix/ipc/semaphore.c:233-239 | wait() reaps an exited client, never the worker |
| SemaphoreProgress.RunLength | posix/ipc/semaphore.c:136-247 | every run in which all exit has the same number of steps, 6nr+n+2 |
| SemaphoreProgress.DeadlockFreeIff | posix/ipc/semaphore.c:144-244 | no reachable state is stuck if and only if the queue holds at least one message and, if there are requests, the limit is positive and the queue holds as many as the limit or the number of clients lets in |
| SemaphoreProgress.OnlyRepliesIff | posix/ipc/semaphore.c:24-24 | clients receive only replies if and only if there are fewer clients than WORKER_TYPE; otherwise one takes its own request |
| SemaphoreCrashes.CrashedHolderBound | posix/ipc/semaphore.c:190-216 | SEM_UNDO keeps value and holders at the limit when clients crash at any step |
| SemaphoreCrashes.CrashedFlightBound | posix/ipc/semaphore.c:188-214 | with crashes, the messages in queue and worker still belong to different clients: at most as many as clients, and one more than the queue holds |
| SemaphoreCrashes.CrashBoundIff | posix/ipc/semaphore.c:98-109 | with crashes, the bound by the limit of the semaphore holds if and only if no more messages than that fit, or nothing is ever sent |
| StripedCounter.StepKeepsInv | posix/ipc/shared-memory-count-output-semaphore.c:203-303 | every step, crashes included, keeps semaphores balanced, counts exact and reports bounded |
| StripedCounter.StripeIsRest | posix/ipc/shared-memory-count-output-semaphore.c:213-213 | the stripe of a character is its rest modulo the number of stripes |
| StripedCounterReports.StripeValue | posix/ipc/shared-memory-count-output-semaphore.c:66-75 | value + limit * writers + readers = limit for every stripe, whoever crashed |
| StripedCounterReports.WriterExcludes | posix/ipc/shared-memory-count-output-semaphore.c:214-231 | a writer is alone in its stripe |
| StripedCounter.KeepStoreNew | posix/ipc/shared-memory-count-output-semaphore.c:225-225 | the second half of counter[c]++ makes the count exactly one more than it is at that moment, and touches no other |
| StripedCounterReports.NoIncrementLost | posix/ipc/shared-memory-count.c:187-218 | every count is its start and one for each increment written; a process that finishes has written all of its own |
| StripedCounterReports.OccursCounted | posix/ipc/shared-memory-count.c:187-218 | occurrences are the number of places that hold the character |
| StripedCounterReports.FinalCounts | posix/ipc/shared-memory-count.c:187-218 | when all have finished, each count is its start and the number of places in all inputs that hold the character |
| StripedCounterReports.ReportsDisjoint | posix/ipc/shared-memory-count-output-semaphore.c:237-296 | with the output semaphore, reports never overlap |
| StripedCounterReports.ReportsOrdered | posix/ipc/shared-memory-count-output-semaphore.c:237-296 | with it, of two reports one is nowhere behind the other |
| StripedCounterReports.ReportedCount | posix/ipc/shared-memory-count.c:236-248 | a reported count is at least the start and all own occurrences, and at most the present count |
| StripedCounterReports.ReadsUndisturbed | posix/ipc/shared-memory-count.c:236-248 | a count is read while no process writes in its stripe |
| StripedCounterProgress.NoDeadlock | posix/ipc/shared-memory-count-output-semaphore.c:203-297 | until all have ended some process can go on, although reporters take stripes while holding the output semaphore |
| StripedCounterProgress.RunEnds | posix/ipc/shared-memory-count-output-semaphore.c:203-303 | every run is bounded |
| SharedMemoryHandshake.StepKeepsInv | posix/ipc/shared-memory.c:84-170 | every step keeps whose turn it is, what is handled, and what is printed |
| SharedMemoryHandshake.NoLostWakeup | posix/ipc/shared-memory.c:98-104 | who sleeps although its flag is set has a signal pending, or the other side is just about to send it |
| SharedMemoryHandshake.NoStuck | posix/ipc/shared-memory.c:95-169 | until both have exited, one of them can step |
| SharedMemoryHandshake.RunEnds | posix/ipc/shared-memory.c:119-170 | in every interleaving both stop after a bounded number of steps, and so, by NoStuck, the worker exits |
| SharedMemoryHandshake.HandlesInOrder | posix/ipc/shared-memory.c:147-168 | requests are handled in order, each at most once, and y is the square of the last |
| SharedMemoryHandshake.HandlesAllBeforeLast | posix/ipc/shared-memory.c:119-125 | at the end all requests but possibly the last are handled |
| SharedMemoryHandshake.QuitMayOvertake | posix/ipc/shared-memory.c:119-123 | for every n both happen: a run that handles all requests, and one in which 'Q' overtakes the last |
| SharedMemoryHandshake.AllHandledIff | posix/ipc/shared-memory.c:119-125 | every run handles all requests before it ends if and only if there are none |
| SharedMemoryHandshake.ResultBeforeNext | posix/ipc/shared-memory.c:107-110 | when the parent starts request i, y is the square of i-1 |
| SharedMemoryHandshake.SignalsTheParent | posix/ipc/shared-memory.c:168-168 | the ppid the worker signals was already written by the parent |
| SharedMemoryHandshake.PrintsInOrder | posix/ipc/shared-memory.c:111-111 | line k shows x = k and as y the square of k or of k-1; all n lines are printed |
| ShortCount.ShortsAt | posix/threads/thread-memory-count-shorts-mutex.c:103-111 | the k-th pair is byte 2k plus 256 times byte 2k+1 of the file, or plus 0 behind an odd end |
| ShortCount.CountChunk | posix/threads/thread-memory-count-shorts-mutex.c:110-121 | the inner loop locks byte 2k plus 256 times byte 2k+1 of the buffer for each k in order, and counts each once |
| ShortCount.ReadKeepsTrack | posix/threads/thread-memory-count-shorts-mutex.c:91-129 | whatever size a read returns, its pairs continue those of the file up to the carried byte, and at the end, padded, complete them |
| ShortCount.Round | posix/threads/thread-memory-count-shorts-mutex.c:91-129 | one round locks the pairs of the carried byte and the bytes read, and carries an odd byte to the front |
| ShortCount.Run | posix/threads/thread-memory-count-shorts-mutex.c:88-129 | the values a thread locks are exactly those of the pairs of its file, in order, however the reads split it |
| ShortThreads.ThreadsRefine | posix/threads/thread-memory-count-shorts-mutex.c:72-160 | with reads of any sizes in every interleaving, the threads and the main thread refine the counter that knows all pairs in advance |
| ShortThreads.ThreadCounts | posix/threads/thread-memory-count-shorts-mutex.c:88-212 | when the main thread has joined all threads, the counter of v is the number of even positions in all files whose byte, plus 256 times the next or zero, is v, for every chunking and interleaving |
| ShortThreads.ThreadReports | posix/threads/thread-memory-count-shorts-mutex.c:136-160 | a reported count contains all such positions of the thread's own file and is not ahead of the counter |
| ShortThreads.PrintsAlone | posix/threads/thread-memory-count-shorts-mutex.c:136-206 | no two threads report at once, and none while the main thread prints |
| ShortThreads.ThreadsNoDeadlock | posix/threads/thread-memory-count-shorts-mutex.c:136-212 | until the main thread has joined all, some thread can go on, although reporters take a pair's mutex inside the output mutex and the main thread takes that one too |
| ShortThreads.ThreadsEnd | posix/threads/thread-memory-count-shorts-mutex.c:88-212 | every run is bounded, in reads, counting and joining |
| SplitToArray.RunBytes | posix/lib/lib.c:237-239 | a run consists of bytes 65-90, 48-57, 97-122 and 160-255, and ends before any other |
| SplitToArray.GapBytes | posix/lib/lib.c:237-239 | a gap consists of the other bytes, and ends before one of these |
| SplitToArray.CopyString | posix/lib/lib.c:287-300 | copies the run at the read position to the write position, ends it with a zero, and touches nothing unread |
| SplitToArray.SkipSeparators | posix/lib/lib.c:323-329 | stops at the next word character, or at the end |
| SplitToArray.WordsAreRuns | posix/lib/lib.c:281-330 | the words are the contents of exactly the maximal runs of those bytes, in order: runs lie apart, and a position is in one if and only if it holds such a byte |
| SplitToArray.RoundProgress | posix/lib/lib.c:286-330 | a round finds the next word; the first round finds an empty string when the text does not start with a word |
| SplitToArray.SplitWords | posix/lib/lib.c:266-348 | the strings at the returned pointers are the words, after an empty one exactly when the content is empty or starts with a separator, packed at the front of the buffer |
| SplitToArray.Split | posix/lib/lib.c:266-348 | in terms of the bytes: the pointers lead to the maximal runs of bytes 65-90, 48-57, 97-122 and 160-255 of the text, in order, each followed by a zero byte |
| SplitToArray.JoinedStrings | posix/lib/lib.c:301-312 | no string is overwritten by a later one: each pointer still leads to its own word at the end |
| SplitToArray.TableSuffices | posix/include/itskylib.h:17-18 | the table of pointers is large enough for every text of less than 2*10^10 bytes |
| Flattening.Add | posix/lib/lib.c:301-321 | appends a pointer to the table of blocks |
| Flattening.Flatten | posix/lib/lib.c:331-342 | reading the blocks back yields the pointers in order |
| Transmission.HeaderBytes | posix/lib/transmission-protocols.c:46-48 | the length is sent as four bytes, the highest first |
| Transmission.LengthOfHeader | posix/lib/transmission-protocols.c:44-65 | ntohl undoes htonl |
| Transmission.FrameBytes | posix/lib/transmission-protocols.c:44-55 | a frame is those four bytes and the message |
| Transmission.WriteString | posix/lib/transmission-protocols.c:39-55 | appends four bytes that hold the length, the highest first, and the first len bytes, or all before the terminator, in any pieces; a message of 2^32 bytes or more is refused |
| Transmission.MessageUnique | posix/lib/transmission-protocols.c:28-42 | len, or the terminator when len is -1, determines the message |
| Transmission.ParseBytes | posix/lib/transmission-protocols.c:62-90 | what the bytes of a stream mean: length in four bytes, the highest first, then the message; or no length; or a message cut short |
| Transmission.ReadStringFragmentable | posix/lib/transmission-protocols.c:62-90 | the consumer gets as many bytes as the four bytes of length say, in chunks that fit the buffer and make up the message; what happens on a short stream |
| Transmission.ConcatFirst | posix/lib/transmission-protocols.c:75-88 | chunks make up a message in the order in which they were consumed |
| Transmission.ReadAndStoreString | posix/lib/transmission-protocols.c:105-137 | returns as many bytes as the four bytes of length say, and a terminator; 0 for the empty message and when there is no length |
| Transmission.ReadString | posix/lib/transmission-protocols.c:92-102 | consumes the message at once, and nothing for an empty one |
| Transmission.ParseFrame | posix/lib/transmission-protocols.c:62-90 | reading a frame gives back the message and leaves what follows |
| Transmission.Send | posix/socket/tcp-thread-sorted-once-server.c:254-286 | writes the messages and the end of the transmission |
| Transmission.Receive | posix/socket/tcp-square-server-dns-fork.c:236-259 | a receiver gets exactly the messages sent, however reads and writes split them, and leaves what follows |
| Transmission.ReceiveChunks | posix/socket/tcp-thread-sorted-once-client.c:84-90 | so does one that takes chunks, none larger than its buffer |
| Transmission.EncodeFrames | posix/lib/transmission-protocols.c:39-59 | a transmission is its frames in order and four zero bytes |
| Transmission.EncodeUnique | posix/lib/transmission-protocols.c:39-59 | no two transmissions look the same on the stream |
| Arithmetic.AdcExact | posix/c/arithmetic.c:45-55 | value and carry are the exact sum, though the carry is derived from the highest bits |
| Arithmetic.SbbExact | posix/c/arithmetic.c:69-79 | value and borrow are the exact difference |
| Arithmetic.ExactIff | posix/c/arithmetic.c:45-55 | the sum is exact for all operands if and only if the carry passed in is 0 or 1 |
| Arithmetic.DifferenceExactIff | posix/c/arithmetic.c:69-79 | the difference is exact for all operands if and only if the borrow passed in is 0 or 1 |
| Arithmetic.AddExact | posix/c/arithmetic.c:61-67 | chaining adc over any number of words of any width gives the exact sum |
| Arithmetic.SubtractExact | posix/c/arithmetic.c:69-79 | chaining sbb gives the exact difference |
| Arithmetic.SubtractUndoesAdd | posix/c/arithmetic.c:45-83 | subtracting gives back the first operand, and borrows exactly when the addition carried |
| Simpson.PrimitiveDerives | akka/scala/SimpsonIntegration.scala:9-13 | the integral used is that of the polynomial: its difference quotient is the polynomial up to a term with the factor h |
| Simpson.Integrate | akka/scala/SimpsonIntegration.scala:33-49 | for polynomials of degree at most four the sum is the integral and an error in the highest coefficient; 0 without panels |
| Simpson.ErrorInFull | akka/scala/SimpsonIntegration.scala:33-49 | the error of n panels of half width h is n * 4/15 * c4 * h^5 |
| Simpson.ExactIff | akka/scala/SimpsonIntegration.scala:9-13 | that error is 0 if and only if the degree is at most three or the interval is empty |

## Left out

- FlashSort.FSortF: floating-point rounding, NaN and infinity are not modelled. The metric must agree with the comparator
  on all elements and tell least from greatest if they differ; otherwise the program divides by zero.
- PrintedTable.ShippedOrders: the sums of the metric are exact; the program adds doubles. How the script rounds is modelled,
  for totals below 2^53 even if it divides doubles: half a unit of the last decimal and a fiftieth for the division.
- Metrics.MetricStrFull: the loop of the program also stops when factor underflows to 0, which exact numbers never do.
- ParallelSort.PSortSorts: `qsort_r` (QUICK_SORT) is libc's and appears only as "any correct local sort"; failing thread and
  barrier calls are left out.
- InsertionSorting.ISortR: the loops over k with empty bodies (posix/lib/isort.c:42-60) are left out.
- SemaphoreWorker.StepKeepsInv: crashes of the worker and the parent; crashes of clients are in SemaphoreCrashes, which does
  not follow them beyond the shutdown.
- StripedCounter.StepKeepsInv: removal of the semaphores and the shared memory while processes run (option -c) is left out.
- SharedMemoryHandshake.StepKeepsInv: SIGTERM, SIGINT and failing system calls are left out.
- ShortCount.Run: unsigned shorts are read low byte first, as on the machines the program is for; files that cannot be
  opened or read, and threads that cannot be started, are left out.
- SplitToArray.Split: the blocks of the pointer table are allocated when first used in the program, and here all at the start.
- Transmission.Receive: the four bytes of a length are transferred whole, since the program does not loop on them; failing
  reads and writes, whose result -1 the program stores in an unsigned variable, are left out.
- Simpson.Integrate: exact real numbers in place of doubles.
- Sequential consistency is assumed of shared memory. Fairness and starvation are not considered: progress means that some
  step is possible and that every run is bounded.
- C integer widths of sizes, counters and of x*x; allocation failures; printing, timing and log output.
- `readn` and `writen` (posix/lib/lib.c:351-400): transfer loops like the ones of the framing functions.
- `metric_int_full`, `mul`, `divx`, `lower`, `upper`: single expressions.
- `thread-sort-shorts.c`, the segmented-semaphore counter, the `daemonize-*` programs, terminal programs, sockets and DNS,
  file utilities, Akka actors and the small Scala demonstrations.
