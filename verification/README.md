# CacheLens: the lock-free queues and the profiler pipeline, verified

This project models, in Dafny, the two parts of CacheLens whose correctness is not visible from any single function,
and proves what they promise.

**The queues** (`benchmarks/mpmc_queue.cpp`, `benchmarks/spsc_queue.cpp`, `benchmarks/queue_latency.cpp`). Each thread
is a program counter with the locals of `push` or `pop`; one step is one access to shared memory. A schedule is any
sequence of thread choices, and may also make a weak compare-and-exchange fail without cause. The theorems hold for
every schedule, any number of producers and consumers, any item count and any power-of-two capacity of at least 2;
`MpmcOneCell` treats the capacity of 1.

* The multi-producer queue refines a bounded FIFO: each access is one FIFO event or none, `push` taking effect at its
  successful exchange and `pop` at its own (`MpmcRefinement.Refines`). From the refinement and its invariant follow
  freedom from payload races, the exact meaning of every sign of `diff`, exactly-once delivery, per-producer order,
  freedom from deadlock, and the exact conditions under which an operation completes without help.
* The single-producer queue hands over an exact prefix of what was pushed, and the skew of its index variables, which
  are stored last, is bounded exactly.
* The open-loop harness measures from the intended send time in every interleaving, so a stall is charged to every
  item that was due during it. A due item goes out without waiting (`LatencyProgress.PublishesExactly`), and the receive
  times that can occur are exactly the timely ones (`LatencyProfiles.AttainableExactly`).

The classes `MpmcMachine.Machine`, `SpscMachine.Machine` and `LatencyHarness.Harness` hold the same state in arrays and
fields and update it in place; every method is proved to make exactly the step of the state machine.

**The profiler pipeline** (`src/main.cpp`). A ring written byte by byte by the kernel while it is drained; `drain` and
`copy_wrapped` in place; the memoised attribution against direct counts; the Wilson bound outside its textbook domain;
the prime search in wrapping 64-bit arithmetic; and the ranking. `Pipeline` chains them: over any interleavings of any
number of rings, each source line's count is the number of SAMPLE records published for it
(`Pipeline.EveryRecordCounted`), and of two lines with equally many accesses the one with more published misses is
ranked first (`Pipeline.HotterLineFirst`).

**Two array and heap programs**: the matrix loop interchange, with addition and multiplication as parameters without
laws, and the shuffled linked list with its deletion.

Results are stated over the literal numbers of the source: address intervals, record type numbers, body sizes, the support
threshold, the confidence level and the quantiles.

## Reading guide

| module | content |
|---|---|
| `Words`, `Sums`, `Counting` | 64-bit arithmetic, masks, sums, the checksum formula, counting |
| `QueueJob`, `BoundedFifo` | what a queue run is asked to do; the abstract FIFO and its invariant |
| `MpmcQueue`, `MpmcInvariant`, `MpmcRefinement`, `MpmcTheorems`, `MpmcProgress`, `MpmcMachine` | the multi-producer queue |
| `MpmcOneCell`, `MpmcStalls` | the capacity it needs, and what a stopped thread stops |
| `SpscQueue`, `SpscMachine` | the single-producer queue |
| `QueueLatency`, `LatencyProgress`, `LatencyProfiles`, `Percentiles`, `LatencyHarness` | the latency harness |
| `PerfRecord`, `RingDrain`, `DrainAnyBytes` | record layout, `drain`, `drain` on arbitrary bytes |
| `RingProtocol`, `RingProgress` | the ring shared with the kernel: what every interleaving keeps, and that it moves |
| `Attribution`, `AttributionTheorems` | `classify_and_attribute` |
| `Wilson`, `Primes`, `Ranking`, `Pipeline` | the bound, the period search, the ranking, end to end |
| `Matrix`, `PointerChase` | the two smaller programs |

## What the proofs found

* The queue needs a capacity of at least 2 as soon as there are two items: some interleaving overfills it if and only if
  it has a single cell and more than one item (`MpmcOneCell.OverfillsExactly`). Item 0 is then overwritten by item 1, and
  no consumer ever pops anything again (`MpmcOneCell.OneCellLosesItems`).
* The queue is not lock-free. For every job with more items than cells, any consumer with something to pop can stop
  between its exchange and its sequence store so that, although the queue has room, no push ever takes effect again
  until it moves (`MpmcStalls.ConsumerCanBlockPushes`); any producer with an item can stop every pop
  (`MpmcStalls.ProducerCanBlockPops`). `MpmcProgress.PushCompletesExactly` and `PopCompletesExactly` give the exact
  conditions for a thread run alone.
* The drivers halve the expected checksum after the product has wrapped. The final check therefore passes for a correct
  run exactly when bit 63 of the true sum is clear (`Sums.ExpectedMatches`). With 2^32 + 2 items every correct run is
  reported as a mismatch (`MpmcProgress.CorrectRunFailsCheck`, `SpscQueue.CorrectRunFailsCheck`); with the 100 million
  items of the sources every correct run passes (`ShippedCheckPasses` in both modules).
* `is_prime` squares its divisor in wrapping arithmetic. It is nevertheless exact for all 64-bit values, because -7 has
  an odd square root modulo 2^64 which stops the loop, and the four numbers it would not stop have small divisors.
* `nearest_prime` returns the nearest prime exactly up to a threshold near the top of the 64-bit range, given by the
  greatest 64-bit prime; above it the answer is 2, and for the last 28 values it is always 2.
* `drain` checks a record's size against the head position but not against its type. A record is decoded from its own
  bytes if and only if its body has the layout of its type (`DrainAnyBytes.DecodesOwnBytesExactly`); a shorter SAMPLE
  record is accepted and takes its remaining fields from the bytes after it. The round trip therefore rests on the perf
  record layout, stated as `PerfRecord.HasLayout`.
* That check adds in 64 bits: a record running past the head is rejected if and only if its end does not wrap
  (`RingDrain.SizeCheckExactly`). A buffer that holds real records never gets there (`DrainAnyBytes.RecordsDoNotWrap`).

## Model

| member | source | states |
|---|---|---|
| Words.MaskIsRemainder | benchmarks/mpmc_queue.cpp:47 | masking with a power of two less one is the remainder, for the bitwise conjunction |
| QueueJob.SlotInjective | benchmarks/mpmc_queue.cpp:94 | positions less than a lap apart use different cells |
| QueueJob.EvenSplitValid | benchmarks/mpmc_queue.cpp:158-171 | producer p of the split in `main` has total / producers items from p * (total / producers) on, each consumer pops total / consumers, and the job is valid with that total and the capacity given |
| MpmcQueue.QueueInit | benchmarks/mpmc_queue.cpp:87-89 | the initial queue: cell i carries sequence i |
| MpmcRefinement.StepSimulates | benchmarks/mpmc_queue.cpp:91-131 | from any state related to a FIFO, one access by any thread is one enabled FIFO event or none, and stays related |
| MpmcRefinement.Refines | benchmarks/mpmc_queue.cpp:87-131 | every interleaving, spurious exchange failures and stale positions included, is a legal run of a FIFO of at most the capacity |
| MpmcTheorems.ReceivedIsTaken | benchmarks/mpmc_queue.cpp:112-131 | the values `pop` has returned to a consumer are those the FIFO dequeued for it, in order |
| MpmcTheorems.PayloadExclusive | benchmarks/mpmc_queue.cpp:98-100 | no two threads between exchange and sequence store are on one cell, so the plain payload accesses never race |
| MpmcTheorems.ReadSeesItsTicket | benchmarks/mpmc_queue.cpp:119-121 | a consumer about to read finds the item whose push claimed the same ticket |
| MpmcTheorems.PushDiffMeaning | benchmarks/mpmc_queue.cpp:94-108 | in `push`, diff < 0 exactly when pos is current and the previous lap's cell is unreleased; diff > 0 exactly when the ticket is taken and published |
| MpmcTheorems.PopDiffMeaning | benchmarks/mpmc_queue.cpp:115-129 | in `pop`, diff < 0 exactly when pos is current and unpublished; diff > 0 exactly when the ticket is taken and its cell released |
| MpmcTheorems.DeliversExactlyOnce | benchmarks/mpmc_queue.cpp:133-143 | a complete run hands out 0..T-1, each to exactly one consumer, and the checksum is the wrapped true sum |
| MpmcTheorems.FinalCheck | benchmarks/mpmc_queue.cpp:175-186 | the check succeeds exactly when bit 63 of the true sum is clear |
| MpmcTheorems.PerProducerOrder | benchmarks/mpmc_queue.cpp:91-142 | what one consumer receives from one producer is strictly increasing |
| MpmcProgress.PushCompletesExactly | benchmarks/mpmc_queue.cpp:91-110 | a producer run alone finishes its push if and only if it holds a ticket or the next cell is released |
| MpmcProgress.PopCompletesExactly | benchmarks/mpmc_queue.cpp:112-131 | a consumer run alone finishes its pop if and only if it holds a ticket or the oldest one is published |
| MpmcProgress.NoDeadlock | benchmarks/mpmc_queue.cpp:91-143 | in every reachable state with work left some thread run alone finishes its operation, within six accesses |
| MpmcProgress.CanComplete | benchmarks/mpmc_queue.cpp:158-172 | every interleaving can be completed, within six accesses per outstanding operation |
| MpmcProgress.CorrectRunFailsCheck | benchmarks/mpmc_queue.cpp:175-186 | with 2^32 + 2 items, whatever the capacity and thread counts, a finishing run exists, and every one delivers each item once yet fails the check |
| MpmcProgress.ShippedCheckPasses | benchmarks/mpmc_queue.cpp:48 | with the 100 million items of the source every complete run passes the check |
| MpmcOneCell.OverfillsExactly | benchmarks/mpmc_queue.cpp:46 | for every balanced job, some interleaving puts more items into the queue than it has cells if and only if there is one cell and more than one item |
| MpmcOneCell.OneCellLosesItems | benchmarks/mpmc_queue.cpp:94-100 | with one cell and at least two items some interleaving overwrites item 0, after which no continuation ever pops anything |
| MpmcStalls.ConsumerCanBlockPushes | benchmarks/mpmc_queue.cpp:119-121 | with more items than cells, any consumer can stop after its exchange so that, with room in the queue, no push takes effect in any continuation without it and no producer run alone finishes |
| MpmcStalls.ProducerCanBlockPops | benchmarks/mpmc_queue.cpp:98-100 | any producer with an item can stop after its exchange so that no pop takes effect in any continuation without it |
| MpmcMachine.Machine.constructor | benchmarks/mpmc_queue.cpp:155-163 | allocation and `queue_init` in place give the initial state |
| MpmcMachine.Machine.PushAccess | benchmarks/mpmc_queue.cpp:91-110 | the next access of `push`, in place, is exactly the producer's step; nothing else changes |
| MpmcMachine.Machine.PopAccess | benchmarks/mpmc_queue.cpp:112-131 | the next access of `pop`, in place, is exactly the consumer's step |
| MpmcMachine.Machine.Execute | benchmarks/mpmc_queue.cpp:133-143 | the driver loops under any schedule reach exactly the state of the run |
| MpmcMachine.Machine.SelfCheck | benchmarks/mpmc_queue.cpp:175-186 | summing the partial sums and comparing decides the checksum equation |
| MpmcMachine.Benchmark | benchmarks/mpmc_queue.cpp:147-187 | `main` under any finishing schedule reports OK exactly when bit 63 of the true sum is clear |
| Sums.ExpectedMatches | benchmarks/mpmc_queue.cpp:179 | the wrapped sum equals the wrapped formula exactly when bit 63 of the true sum is clear, in particular when the product fits |
| BoundedFifo.ExactlyOnce | benchmarks/mpmc_queue.cpp:133-143 | once every quota is met, the FIFO's consumers hold each of 0..T-1 once |
| SpscQueue.PrefixSafety | benchmarks/spsc_queue.cpp:162-190 | in every interleaving the received values are an exact prefix of the pushed ones |
| SpscQueue.Occupancy | benchmarks/spsc_queue.cpp:152-190 | published minus released stays within 0..capacity; the late index stores give -1 <= tail - head <= capacity + 1 |
| SpscQueue.SkewIsTight | benchmarks/spsc_queue.cpp:171-172 | both ends of that index bound are reached, for every capacity |
| SpscQueue.PayloadExclusive | benchmarks/spsc_queue.cpp:170-187 | payload write and payload read are never on one cell |
| SpscQueue.DeliversAll | benchmarks/spsc_queue.cpp:192-202 | a complete run delivers everything in order, and the checksum is the wrapped sum |
| SpscQueue.SpinsExactly | benchmarks/spsc_queue.cpp:166-185 | the producer spins exactly while the queue is full, the consumer exactly while it is empty |
| SpscQueue.CanComplete | benchmarks/spsc_queue.cpp:192-202 | every interleaving can be completed |
| SpscQueue.CorrectRunFailsCheck | benchmarks/spsc_queue.cpp:225-234 | with 2^32 + 2 items a finishing run exists, and every one delivers everything in order yet fails the check |
| SpscQueue.ShippedCheckPasses | benchmarks/spsc_queue.cpp:85 | with the 100 million items of the source every complete run passes the check |
| SpscMachine.Machine.PushAccess | benchmarks/spsc_queue.cpp:162-173 | the next access of `push`, in place, is exactly the producer's step |
| SpscMachine.Machine.PopAccess | benchmarks/spsc_queue.cpp:178-190 | the next access of `pop`, in place, is exactly the consumer's step |
| SpscMachine.Benchmark | benchmarks/spsc_queue.cpp:206-235 | `main` reports OK exactly when bit 63 of the true sum is clear |
| QueueLatency.LatencyFromIntended | benchmarks/queue_latency.cpp:173-193 | latency k is receive time minus start + k * interval, and never negative, under every monotone clock |
| QueueLatency.StallIsCharged | benchmarks/queue_latency.cpp:187-192 | a stall of one item is charged to every later item due during it: no coordinated omission |
| QueueLatency.AllRecorded | benchmarks/queue_latency.cpp:176-180 | after the last stamp every entry of the latency vector is filled |
| LatencyProgress.PublishesExactly | benchmarks/queue_latency.cpp:183-193 | in every reachable state the producer, alone and without a tick, publishes the next item within seven accesses if the clock has reached start + k * interval and the queue has room, and never otherwise |
| LatencyProgress.StampsExactly | benchmarks/queue_latency.cpp:173-181 | the consumer alone stamps the next item within six accesses if the flag is up and the item is published, and never otherwise |
| LatencyProgress.CanComplete | benchmarks/queue_latency.cpp:173-196 | every interleaving whose clock has reached the last intended time can be completed without a tick, within 14 accesses an item |
| LatencyProgress.ShippedPlanValid | benchmarks/queue_latency.cpp:54-59 | the plan of the source meets what the theorems require |
| LatencyProfiles.AttainableExactly | benchmarks/queue_latency.cpp:173-193 | a sequence of receive times comes from some run if and only if it never goes back and no item comes before its intended time |
| Percentiles.RankDetermines | benchmarks/queue_latency.cpp:147-148 | an order statistic has one value, and higher ranks have values at least as high |
| Percentiles.RankIsQuantile | benchmarks/queue_latency.cpp:147-148 | for every q below 1 the value at the rank the code reads off is the q-quantile, by counting in any order |
| Percentiles.ComputePercentiles | benchmarks/queue_latency.cpp:144-149 | for q = 0.50, 0.99, 0.999, 0.9999 at most q * n recorded latencies are below the value and more than q * n are not above it; max is the greatest one; the vector is sorted in place, p50 <= p99 <= p99.9 <= p99.99 <= max |
| LatencyHarness.Harness.ProducerAccess | benchmarks/queue_latency.cpp:183-193 | the producer lambda's next access in place is its step of the model |
| LatencyHarness.Harness.ConsumerAccess | benchmarks/queue_latency.cpp:173-181 | the consumer lambda's next access in place is its step of the model |
| LatencyHarness.Measure | benchmarks/queue_latency.cpp:153-206 | the reported values are the quantiles, by counting, of receive time minus intended time, non-negative and ordered |
| PerfRecord.SampleRoundTrip | src/main.cpp:322-324 | the body struct decodes the fields a sample record was written with |
| PerfRecord.LostRoundTrip | src/main.cpp:329-331 | the body struct decodes the lost count a lost record was written with |
| PerfRecord.HeaderDetermines | src/main.cpp:310-315 | any bytes whose header announces their length are the encoding of one record |
| PerfRecord.LittleEndian | src/main.cpp:310-331 | a field's first byte is the least significant one |
| RingDrain.CopyWrapped | src/main.cpp:292-296 | the two block copies read the circular stretch at the offset, byte for byte |
| RingDrain.SamplingEvent.TakeBody | src/main.cpp:320-348 | the switch over the record type appends the sample of a SAMPLE record and nothing otherwise, and counts the record once |
| RingDrain.SamplingEvent.Drain | src/main.cpp:299-352 | wherever no record end exceeds 64 bits, the loop in place equals the specification that `DrainsLog`, `HaltsExactly` and `AcceptsExactly` characterise: outcome, samples, histogram, tail, and data_tail stored only on success |
| RingDrain.DrainRoundTrip | src/main.cpp:308-351 | draining a log serialised anywhere in the buffer, wrapping included, appends exactly its samples in order and tallies each record once |
| RingDrain.SizeCheckExactly | src/main.cpp:315 | a record running past the head is rejected exactly when its end fits 64 bits; otherwise it is accepted and tail falls back |
| DrainAnyBytes.AcceptsExactly | src/main.cpp:302-351 | on arbitrary bytes, the drain succeeds exactly when the unread stretch fits the buffer and is a gapless sequence of records with truthful sizes, none of type 5 or 6; it then has counted each once by type, summed the lost counts, and read one sample after each SAMPLE header |
| DrainAnyBytes.DrainsLog | src/main.cpp:308-351 | a log of well-formed records, none of type 5 or 6, is drained to the head, counted by type number with EXIT as 4, whatever the bodies |
| DrainAnyBytes.HaltsExactly | src/main.cpp:302-343 | with at most a buffer unread, the drain ends with each of its messages exactly when the bytes are a sound log followed by a header with that fault |
| DrainAnyBytes.HaltsAtThrottle | src/main.cpp:337-343 | a log whose first record of type 5 or 6 is any record n ends in the throttle message, whatever follows it |
| DrainAnyBytes.RecordsDoNotWrap | src/main.cpp:308-350 | a buffer holding real records never brings the 64-bit positions to wrap |
| DrainAnyBytes.DecodesOwnBytesExactly | src/main.cpp:320-348 | a record is decoded from its own bytes, in any buffer and at any offset, if and only if its body has the layout of its type |
| DrainAnyBytes.AppendsOnly | src/main.cpp:308-350 | however it ends well, the loop only appends samples, at most one per eight bytes |
| DrainAnyBytes.ShortSampleReadsPastItsEnd | src/main.cpp:321-327 | a SAMPLE record with any shorter body is accepted, and its sample is its body followed by the bytes after it |
| RingProtocol.RingSafety | src/main.cpp:299-352 | in every interleaving data_tail <= tail <= seen head <= data_head <= data_tail + size, no fatal exit, and the samples are those of the records passed |
| RingProtocol.UnreadBytesFrozen | src/main.cpp:302-307 | the kernel never changes a byte between data_tail and data_head |
| RingProtocol.DrainInProgress | src/main.cpp:781-804 | a drain under way, whatever the kernel does meanwhile, ends with exactly what was published when its head was loaded |
| RingProtocol.FinalDrain | src/main.cpp:805-810 | the final drain of a quiet ring leaves nothing: samples and counts of every record ever published |
| RingProgress.ReaderFinishes | src/main.cpp:308-351 | from every reachable state at most two reader steps a record and one more end the drain: everything seen is taken and data_tail is the head loaded |
| RingProgress.ReaderCatchesUp | src/main.cpp:781-810 | from every reachable state the reader alone empties the ring, within two steps a record and three more, with every published record's sample and count |
| RingProgress.KernelPublishesExactly | src/main.cpp:302-307 | a record offered to an idle kernel is published exactly when it fits behind the unread bytes, and is counted as dropped otherwise |
| Attribution.SortUnique | src/main.cpp:404-405 | the kernel addresses, each once, ascending |
| Attribution.Lookup | src/main.cpp:386-395 | the memoised lookup answers as the resolver does, and stores a first answer |
| Attribution.ClassifyMeaning | src/main.cpp:228-235 | each bucket is its interval of addresses |
| Attribution.ClassifyAndAttribute | src/main.cpp:373-407 | the memoised pass reports the direct counts over address intervals: text range below 2^47, rest of the user half, from 2^64 - 2^47, in between; and of the text addresses per line, with the address bounds, kernel addresses and memo contents |
| AttributionTheorems.Conservation | src/main.cpp:383-402 | buckets add up to all samples, attributed and unattributed to the target bucket, line counts to attributed |
| AttributionTheorems.OrderIrrelevant | src/main.cpp:379-403 | every field of the report is the same in whatever order the samples come |
| AttributionTheorems.RingsAddUp | src/main.cpp:902-916 | attributing the concatenated rings gives the pointwise sums of attributing each ring alone |
| Wilson.InRange | src/main.cpp:417-434 | the bound lies in 0..m/n for all m >= 0, n > 0, z > 0, also for m > n |
| Wilson.IncreasesInMisses | src/main.cpp:423-434 | more misses with the same accesses strictly raise the bound, across the clamp as well |
| Wilson.MoreEvidence | src/main.cpp:409-416 | the same ratio on k >= 1 times the samples never lowers the bound |
| Wilson.ClampsExactly | src/main.cpp:423-431 | the clamp acts exactly when 4 m (m - n) > z^2 n, and only for m > n |
| Wilson.IsScoreBound | src/main.cpp:417-434 | unclamped, the bound is the least rate the score test accepts; the clamp acts exactly when no rate is accepted, and the bound is then the rate rejected by least |
| Primes.IsPrime | src/main.cpp:436-442 | exact for every 64-bit value although the square of the divisor wraps |
| Primes.NearestPrime | src/main.cpp:444-453 | terminates with a prime, 2 for n < 2, at most 2n - 3 from n = 4 on; for n >= 2 it is the prime nearest to n, ties upward, exactly for n up to (2^64 + 1 + greatest 64-bit prime) / 2, and 2 above; for the 28 greatest values always 2 and not nearest |
| Primes.TopIsOutOfReach | src/main.cpp:450-451 | the 28 greatest 64-bit values are above the threshold, and 2 is not the nearest prime to any of them |
| Ranking.SortDescending | src/main.cpp:994-995 | a permutation, descending by the bound |
| Ranking.Place | src/main.cpp:982-993 | the support gate puts a new site into exactly one of the two lists |
| Ranking.RankBy | src/main.cpp:965-995 | every site of either event is listed once: ranked with its own counts when it has 30 access samples, set aside when not; the ranked list descends |
| Ranking.EntriesDetermined | src/main.cpp:982-993 | two rankings of the same counts differ at most in the order of equal bounds |
| Ranking.EntryMeaning | src/main.cpp:982-993 | a ranked site has at least 30 access samples; its figures are its own m / n and the bound of m in n at z = 1.96, the least rate accepted or rejected by least, times the period scale |
| Ranking.NeverOverclaims | src/main.cpp:989-991 | no ranked bound is negative or above its point estimate |
| Ranking.MoreMissesFirst | src/main.cpp:982-995 | of two sites with equal accesses the one with more misses comes first |
| Ranking.MoreEvidenceNotBelow | src/main.cpp:982-995 | at the same ratio the site with k times the samples has at least the same bound |
| Ranking.ScaleKeepsOrder | src/main.cpp:944-950 | a bound strictly above another at one period scale comes first in the ranking at every scale: the sampling periods never change the order |
| Pipeline.EveryRecordCounted | src/main.cpp:781-916 | over any interleavings of any rings, each line's count is the number of published records of type 9 whose address lies in the text range and resolves to it, and each bucket's the number in its address interval |
| Pipeline.Report | src/main.cpp:902-995 | concatenation, attribution of both events and ranking in sequence give the attributions and the ranking of the combined samples |
| Pipeline.HotterLineFirst | src/main.cpp:781-995 | of two lines with equally many access records, at least 30, the one with more published miss records is ranked first |
| Matrix.MultiplyBad | benchmarks/matrix_bad.cpp:36-49 | leaves in C the product, summed from zero upwards, whatever C held |
| Matrix.MultiplyGood | benchmarks/matrix_good.cpp:34-47 | adds the same products in the same order onto what C held |
| Matrix.RunBoth | benchmarks/matrix_good.cpp:25-47 | with zeroed C the two loop orders leave identical arrays, for addition and multiplication without laws |
| PointerChase.Acyclic | benchmarks/pointer_chase.cpp:47-51 | a chain that ends visits no node twice |
| PointerChase.Link | benchmarks/pointer_chase.cpp:47-51 | the linking loop yields the chain in the given order |
| PointerChase.BuildShuffledList | benchmarks/pointer_chase.cpp:34-54 | for every shuffle, a list through all N new nodes, each once, in that order |
| PointerChase.Traverse | benchmarks/pointer_chase.cpp:56-64 | terminates with the sum over the list, touching only live nodes |
| PointerChase.SumOfPermutation | benchmarks/pointer_chase.cpp:56-64 | the sum is N(N-1)/2 for every shuffle |
| PointerChase.TotalFits | benchmarks/pointer_chase.cpp:69-72 | with the source's node count and iterations the total fits a 64-bit long for every shuffle |
| PointerChase.Cleanup | benchmarks/pointer_chase.cpp:76-82 | deletes every node exactly once and reads none after its deletion |
| PointerChase.Run | benchmarks/pointer_chase.cpp:66-84 | prints 5 times N(N-1)/2 for every shuffle and leaves no node allocated |

## Left out

- Weak memory: the queue and ring models interleave accesses sequentially consistently. Payload exclusivity and
  ticket matching are proved on those interleavings; that the acquire and release tags carry them over to the C++17
  memory model (section [atomics.order] of the standard) is not part of this model.
- Wrap-around of queue positions: item count plus capacity is below 2^63 (`QueueJob.ValidJob`), so the signed
  difference is exact; runs long enough to wrap a 64-bit position are not modelled.
- RingDrain.SamplingEvent.Drain: requires that no record end on the way exceeds 64 bits, because from a wrapped position the
  loop of the source need not terminate. The condition holds for every buffer of real records and for every buffer
  contents below the last 2^16 positions.
- RingProtocol.RingSafety: assumes that the kernel appends records of the requested layout, drops a record that does not
  fit, never throttles, and stays below position 2^64; the loss counters the kernel reports are payload like any other.
- Floating point: the Wilson bound, ratios and quantile indices are over the reals, with the square root as any function
  satisfying its defining equation. Rounding is not modelled; the matrix results need no arithmetic laws.
- Counters of samples are unbounded naturals, as no run can fill 64 bits with stored samples; the sum of lost events does wrap.
- `std::sort` and `std::unique` appear through insertion with the same contract, `std::shuffle` as any permutation. The
  order among equal Wilson bounds and the printed order of the sites set aside are left open.
- Node liveness in `PointerChase` is a ghost set beside the Dafny heap, so that reading or deleting a deleted node
  is excluded by precondition; addresses and allocation failure are not modelled.
- Pipeline.Report: requires a positive access period, which `nearest_prime` and the option parser guarantee.
- The record type numbers and the body layouts are those of the Linux perf interface, whose header is not part of this model.
- System calls, process control, calibration, poll timing, ELF and debug-information reading: the kernel is an environment
  that appends records, the resolver is an arbitrary function of the address.
- Halt conditions on sample periods and multiplexing, argument parsing, printing, thread pinning, cache-line padding and
  the timer-overhead measurement: no logical content beyond their bodies.
- Scripts, result logs, design documents and the probe programs.
