# A verified model of fdistdump

fdistdump answers queries over network flow records that are spread over many machines. A master
broadcasts a query; each slave reads its flow files with several threads, filters, sorts or aggregates
the records and sends them back over MPI; the master merges and prints. This project models that
engine in Dafny and proves that the distributed answer is the answer of one machine that reads every
file, and says exactly where the code falls short of that.

Run `dafny verify dfyconfig.toml` to check everything.

## The parts

- **Records, memories, order.** `Ordering` (sorted listings, the record limit, which records a limited
  list may leave out), `Aggregation` (a memory as a map from key to values, merged by MIN, MAX, SUM and
  OR; confluence).
- **The Top-N protocol.** `Tput` defines the three phases on the sources' listings and proves
  exactness for every threshold that suffices; `TputLosses` gives the data that lose a record under
  any other, so `TputLimits` has the exact condition on query, sources, bottom and threshold. `Rounding`
  is the threshold as the code computes it in floating point. `TputMemory` and `TputSession` are the loops over cursors and
  memories, proved against those definitions. `TputProtocol` is the message and collective-call
  structure with its barriers as a state machine, `TputTermination` shows that it ends, and `TputRecords`
  that it delivers to every phase the records the definitions ask for.
- **Transport.** `Framing` (length-prefixed records), `Interleaving` (per-source FIFO queues merged in any
  way), `Transport` (the double-buffered sender and the receive loop), `Delivery` (both together),
  `Encoding` (records as bytes).
- **Query modes.** `ListMode` and `ListQuery` (early stop at a shared limit, every interleaving of the
  threads), `ListPath` (one thread, whatever it meets), `ListSender` (the thread at work on its buffers,
  step for step), `SortMode`, `EndToEnd` (sorting,
  aggregation and Top-N from the files to the result), `Wire` and `WireTopN` (all modes over encoded
  messages, buffers and all).
- **The Bloom filter index.** `Bloom` (rewriting a filter to a tree of address lookups and when it is
  sound), `BloomThreads` (the threads of a process that build at the same time and share the address
  count and the error code, in every interleaving) and `BloomHeap` (the same on heap nodes, with every allocation accounted for).
- **Time.** `Calendar` (`tm_diff` against a ticking clock and against POSIX), `Intervals` (alignment and the
  enumeration of flow files).
- **Fields.** The `fields` structure, the call order of argument parsing, the executable check and the
  headers printed from it.
- **Accounting.** Progress reports and summary counters.

## Where the code and its promises differ

- The manual says that Top-N "should not affect the results" and that it supports both directions
  (doc/man/fdistdump.1.in:465-466). In ascending order it may lose records. `TputLimits.ExactOnAllDataIff`
  gives the exact condition for bottoms below 2^53.
- The threshold is computed with doubles (src/master.c:545). From 2^53 on it may come out above the
  bottom's share: descending with limit 2, a single source that holds 2^60 and 2^53 + 3 loses the second
  (`TputLimits.LosesLarge`). `TputLimits.ExactForIff` gives the exact condition on the threshold,
  `TputLimits.LargeBottomIff` the exact bottoms up to 2^54 for one source.
- A threshold count of 0 is passed on as the record limit 0 and sends everything
  (src/slave.c:583-586). The model keeps this; the proofs of completeness go through it.
- Replacing an OR with one missing operand by the other operand (src/bfindex.c:193-218) makes the index
  rule out files that match. `Bloom.SoundShapes` gives the exact condition for one build. A skipped node
  also clears an error code an earlier leaf has set; the model keeps this.
- Every thread builds a tree of its own, all at the same time (src/slave.c:1073-1077, 140-152), and no lock
  protects the count of addresses and the error code they share (src/bfindex.c:131, 140, 409). With
  `(ip a or ip b or ip c) and port > 1024` one of four threads may have room for one address, drop the
  other two, and skip files that match them (`BloomThreads.FourthThreadSkips`). With
  `port > 1024 and (src ip a or src ip b/24)` one of two threads may find the error of the netmask cleared
  by the other (`BloomThreads.SecondThreadClears`). `BloomThreads.ThreadsSoundIff` gives the exact condition
  on the filter and the number of threads, over all interleavings.
- When a path does not fit its buffer the enumeration loop starts over with the same time
  (src/path_array.c:117-124) and does not end. `Intervals.FillEndsIff` gives the exact condition.

## Assumed of foreign code

- libnf: a memory is a map from key to merged values, its cursor a sorted listing of the map; a lookup
  finds the record of a key; a read fails for want of space exactly if the record is longer than the
  space. Bloom filters have no false negatives.
- MPI: messages of one sender, tag and communicator do not overtake each other (section 3.5 of MPI 3.1);
  a buffer given to a non-blocking send is read when the send completes, and one given to a receive may
  be written until it completes; collective calls match in order. The model of the protocol lets a message be
  buffered or handed over directly and lets a collective call return early or wait for all.
- Memory: single accesses to variables that threads share take effect one after another in some order, and
  raising the count of addresses together with its comparison is one access; C gives no meaning to a race.
- OpenMP: one thread takes each single region, barriers wait for the whole team, atomic updates are
  indivisible.
- `mktime` normalises a time without changing the point in time it denotes.

## Model

| member | source | states |
|---|---|---|
| Ordering.CutStable | src/output.c:1527-1598 | Records that each come after at least `n` of the kept ones cannot change the first `n`: the first `n` kept records are the first `n` of a sorted listing of everything. This is what makes a limited list of a part usable. |
| Ordering.ListingUnique | src/output.c:1527-1598 | With a total order two cursors over the same contents walk the same sequence, so what is printed is determined by the contents. |
| Aggregation.MergeAssociates | src/common.c:225-296 | Merging values by MIN, MAX, SUM and bitwise OR, field by field, is associative. |
| Aggregation.MergeCommutes | src/common.c:225-296 | Merging values by MIN, MAX, SUM and bitwise OR, field by field, is commutative. |
| Aggregation.WriteAllConfluent | src/master.c:679-683 | Writing the same records in any order into a memory gives the same memory. |
| Aggregation.WriteAllAbsorbs | src/slave.c:523-554 | Writing the records of another memory, in any order, has the effect of writing the records that were aggregated in it. |
| Aggregation.AggregationRefines | src/slave.c:523-554 | Aggregation per thread followed by aggregation at the master is one flat aggregation, from any start memory. |
| Aggregation.MasterAggregatesAll | src/master.c:665-689 | For any split of the records over threads, any cursor order of each memory and any arrival order, the master's memory equals the flat aggregation of all records, every key and every field. |
| Aggregation.AggregateKeys | src/common.c:225-296 | A key is in the aggregated memory if and only if some record has it. |
| Aggregation.MinIsLeast | src/common.c:225-296 | The aggregated value of a field merged by MIN is at most that of every record of the key and equals one of them. |
| Aggregation.MaxIsGreatest | src/common.c:225-296 | The aggregated value of a field merged by MAX is at least that of every record of the key and equals one of them. |
| Aggregation.OrIsUnion | src/common.c:225-296 | A bit of the aggregated value of a field merged by bitwise OR is set if and only if it is set in some record of the key. |
| Tput.WriteAllSums | src/common.c:225-296 | The aggregated value of a field merged by SUM is the value in the memory before, if any, and the sum over all records of the key. |
| TputMemory.HashMemory.Write | src/common.c:225-296 | The contract of a memory write: the contents become the merged contents and the cursor order stays a sorted listing of them. What merged values are is stated by `Aggregation.MinIsLeast`, `MaxIsGreatest`, `OrIsUnion` and `Tput.WriteAllSums`. |
| TputMemory.HashMemory.FirstRecords | src/slave.c:577-647 | The cursor loop takes exactly the first `limit` records in sort order, all of them for the limit 0. |
| TputMemory.HashMemory.CountRecords | src/common.c:373-390 | Walking the cursor counts every record once. |
| TputMemory.HashMemory.FindBottom | src/master.c:444-488 | The loop finds the sort value of the record at the limit, of the last record if there are fewer, and 0 in an empty memory. |
| TputMemory.HashMemory.FindThresholdCount | src/slave.c:726-771 | The loop counts the records of the longest prefix that meets the threshold, all records if none fails it. |
| TputMemory.ThresholdCountUnique | src/slave.c:726-771 | There is only one such count: it is determined by "everything before meets the threshold, the next one does not". |
| TputMemory.HashMemory.LookUpEach | src/slave.c:830-888 | Looking up each received key yields exactly the records of the source whose keys were received, each once. |
| Tput.VolumeBound | src/slave.c:726-771 | Pigeonhole: if no source has more than `c` of a key, the total over `m` sources is at most `m * c`. |
| Rounding.ThresholdIsCeilDiv | src/master.c:545 | For every bottom below 2^53 the code's division of doubles, rounded up, is the integer ceiling, for any rounding that is monotone, exact on 53 bit integers and accurate to half a unit in the last place. |
| Tput.PartialWithinBottom | src/master.c:444-488 | The first `limit` partial sums are all within the bottom that phase 1 finds, also when there are fewer. |
| Tput.FewPartialSums | src/master.c:503-516 | If phase 1 yields fewer partial sums than wanted, every source has already sent all it has. |
| Tput.BottomIsBound | src/master.c:444-488 | The bottom never lies beyond the total of the last record wanted in a listing of all totals. |
| Tput.CandidatesComplete | src/slave.c:789-812 | Every key whose full total reaches the bottom is in the candidate set, for every threshold that suffices for the bottom; a threshold count of 0 means "send everything". |
| Tput.SomeSourceMeets | src/slave.c:726-771 | For every threshold up to the ceiling of bottom over sources, a key whose total reaches the bottom has some source whose share meets the threshold. |
| Tput.FewAreAllCandidates | src/master.c:534-554 | If fewer records exist than are wanted, every key is a candidate under a threshold that suffices. |
| Tput.Phase3Exact | src/slave.c:830-888 | Phase 3 yields, for every candidate, its exact aggregated record with all its fields, and nothing else. |
| Tput.DroppedOutranked | src/master.c:570-617 | Under a threshold that suffices, a record that is not a candidate comes after at least `limit` records of the final memory. |
| Tput.TputExact | src/master.c:665-689 | In every run whose threshold suffices for its bottom, the first `limit` records of the final memory are the first `limit` of a listing of the flat aggregation of all sources, with every field, for any tie-breaking order. |
| TputLimits.ExactForIff | src/master.c:545 | The exact condition on the threshold: for every query, number of sources, bottom and threshold, all runs with them are exact if and only if the threshold suffices. Descending by a volume that is a threshold up to the ceiling of bottom over sources; by a part of the key, or ascending with one source, one the bottom is within; one record is also safe when the bottom is not within the threshold; ascending by a volume over several sources no threshold suffices. |
| TputLimits.ExactOnAllDataIff | doc/man/fdistdump.1.in:465-466 | With bottoms below 2^53 the code is exact on all data if and only if the order is descending, or there is one source, or the sort field is a part of the key and the limit is 1. The promise of the manual for ascending order does not hold otherwise. |
| TputLimits.LargeBottomIff | src/master.c:545 | With one source, descending, several records wanted and a bottom from 2^53 to 2^54, the code is exact on all data if and only if the bottom is not three more than a multiple of four. |
| TputLimits.LargeBottomSourcesIff | src/master.c:545 | Descending by a volume over any number of sources, several records wanted, a bottom from 2^53 to 2^54: the code is not exact on all data if and only if the bottom is rounded up, is a multiple of the number of sources, and the quotient does not round back. |
| TputLimits.CodeExactIff | src/master.c:545 | Descending by a volume, several records wanted, any bottom and number of sources: the code is exact on all data if and only if the twice rounded quotient is at most the ceiling of the exact one. |
| TputLimits.LosesLarge | src/master.c:545 | Descending with limit 2, one source with 2^60 and 2^53 + 3: the threshold becomes 2^53 + 4 and the second record is lost. |
| Rounding.CodeSufficesIff | src/master.c:545 | The code's threshold suffices for every bottom below 2^53 if and only if the query is one of those. |
| Rounding.LargeBottom | src/master.c:545 | The code's threshold for one source and a bottom from 2^53 to 2^54 is the bottom rounded to an even double, which suffices if and only if it was not rounded up. |
| Rounding.NearestRounds | src/master.c:545 | There is a rounding with all the properties assumed of it. |
| TputLimits.LosesSmall | src/slave.c:742-766 | Ascending by a volume with limit 1: sources {a:1, b:10, c:100} and {c:1, a:100} lose b, however many empty sources there are besides. |
| TputLosses.LosesSecond | src/slave.c:742-766 | Two records of one source with only the first within the threshold, two or more wanted: the second is lost because the count of the prefix stops at the threshold. |
| TputLosses.LosesEven | src/slave.c:742-766 | Descending by a volume, a threshold above the ceiling: a sum split evenly over the sources is below the threshold everywhere and is lost. |
| TputLosses.LosesTop | src/slave.c:742-766 | Descending by a volume with limit 1, a threshold above the ceiling that the bottom still meets: the sources' first records hide a key that is first in total. |
| TputLosses.LosesThin | src/slave.c:742-766 | Ascending by a volume with limit 1, several sources, a threshold below the bottom: a record beyond the threshold at one source is lost to one that others add to. |
| TputLosses.LosesBetween | src/slave.c:742-766 | Ascending by a volume, several sources, any limit, a threshold from the bottom on: a record just beyond the threshold is lost to records that are large elsewhere. |
| TputSession.BottomUnique | src/master.c:444-488 | The bottom depends on the partial sums only, not on how ties come out. |
| TputSession.Phase1 | src/master.c:503-516 | Phase 1 over the sources' memories yields the bottom of the aggregated local first records, the same for every cursor order that sorts them. |
| TputSession.Phase2 | src/master.c:534-554 | Phase 2 yields exactly the candidate keys under the threshold the code computes in floating point, each once. |
| TputSession.Phase3 | src/master.c:570-617 | Phase 3 leaves in the master's memory a sorted listing of the aggregated answers to the candidate lookups. |
| TputSession.TopN | src/master.c:665-689 | Executed over the sources' memories with any delivery order, the query is a run of the protocol with the code's threshold and prints its first records; where that threshold suffices, and so for the queries that are always exact with a bottom below 2^53, these are the first records of the full aggregation. |
| TputSession.TopNOnOneMachine | src/master.c:665-689 | If every source aggregated its own flow records and ties are broken totally, the listing the answer is cut from is the one computed on one machine from all flow records. |
| TputProtocol.StepInv | src/slave.c:789-888 | Every step of the master, of a slave process or of a thread keeps the protocol invariant. |
| TputProtocol.SameCollectives | src/master.c:503-617 | In every run all processes make the same collective calls in the same order, never two at once in one process. |
| TputProtocol.PhasesSeparated | src/slave.c:793-798 | No message of phase 2 or 3 is sent before the matching broadcast was made by the master and every terminator of the phase before was received. |
| TputProtocol.Progress | src/slave.c:834-848 | Every reachable state that is not final has an enabled step, even when no message is buffered and every collective call waits for all processes. |
| TputRecords.Conserved | src/slave.c:830-888 | At every moment of a run, what the master has received from a thread in a phase and what is still to come make up what the thread sends in it. |
| TputRecords.PhaseDelivered | src/master.c:503-617 | Once the master is past a phase it has received an interleaving of exactly what the threads have sent for it. |
| TputRecords.CompleteRun | src/master.c:665-689 | A complete run of the protocol whose threads send what the phases ask for is a run on the sources' listings, so that every result about such runs holds for it. |
| TputTermination.StepUsesWork | src/slave.c:830-888 | Every step strictly decreases the work left: messages to send and to receive, collective calls and barriers. |
| TputTermination.RunsComplete | src/master.c:665-689 | No run is longer than the work at the start, and a run that cannot go on has completed: the query ends. |
| Framing.SizeRoundTrip | src/slave.c:604-622 | The four byte length prefix is read back as it was written. |
| Framing.FirstFrame | src/master.c:387-400 | The parser finds the first record of a message and the rest of the message. |
| Framing.FramesInjective | src/slave.c:577-647 | A message determines its records. |
| Framing.RemainingSurvives | src/slave.c:590-612 | The remaining buffer space survives the conversion to an unsigned type and back, also when it is negative. |
| Transport.SendPort.Wait | src/slave.c:577-647 | A message is delivered as it was when the send was started; this requires that nobody has written to the buffer in flight. |
| Transport.StoreRecord | src/slave.c:596-622 | A record is stored exactly if it fits behind what is in the buffer; otherwise the buffer's contents are left alone. |
| Transport.SendRawMem | src/slave.c:577-647 | The messages sent are the frames of groups of records, none empty, none longer than the buffer, each but the last so full that the next record did not fit, ended by one terminator; the groups together are the first `limit` records (all for 0). A buffer in flight is never written, and the loop ends. |
| Transport.ParseMessage | src/master.c:379-400 | The records of a message are handed on in order until the limit is reached, while the library may write to the other buffer. |
| Transport.RecvLoop | src/master.c:323-406 | The records handed on are those of the messages up to the last awaited terminator, in order, cut at the limit; one receive is outstanding exactly while a source is active and none at the end. |
| Interleaving.InterleavesContents | src/master.c:323-406 | Whatever the interleaving of the sources' queues, everything sent arrives, once. |
| Interleaving.SpreadInterleaves | src/master.c:379-400 | An interleaving of messages is an interleaving of the records in them. |
| Delivery.AllReceived | src/master.c:350-378 | When the last terminator is counted every message has been received, because a source's terminator is its last message. |
| Delivery.ReceiveFromAll | src/master.c:323-406 | For every interleaving of the sources' queues the loop ends, nothing is left in flight, and the callback sees an interleaving of the sources' records (each source's records once and in order), cut at the limit. |
| SortMode.UnsentOutranked | src/slave.c:992-999 | A record that a thread cut off comes after `limit` records that were sent. |
| SortMode.SortModeRefines | src/master.c:640-660 | What the master prints is the top of a sorted list of all records, for any split over threads, any arrival order and any tie-breaking. |
| SortMode.SortModeExact | src/master.c:640-660 | With a total order it equals sorting everything on one machine and cutting. |
| ListMode.AdvanceKeeps | src/slave.c:413-513 | No step of a thread creates, loses unaccounted or doubles a matching record: buffered, in hand, unread, sent and given up add up. |
| ListMode.StepInv | src/slave.c:413-513 | Every step of any thread keeps the slave's invariant: counter, flag, conservation, and records are given up only once the counter has reached the limit. |
| ListMode.RunInv | src/slave.c:904-990 | The invariant holds after every schedule of the threads' steps. |
| ListMode.StepWorks | src/slave.c:413-513 | Each step uses up work, so every run of a slave ends. |
| ListMode.MatchingCount | src/slave.c:428-437 | A record is among the matching ones of a file exactly as often as it is in the file, if it matches, and otherwise not at all. |
| ListMode.RunNoticed | src/slave.c:499-502 | When all threads are done and the shared counter has reached the limit, the flag is up: some thread has noticed, in every interleaving. |
| ListQuery.SlaveDone | src/slave.c:1042-1119 | A slave that is done has sent every matching record once, or at least as many as the limit, and its flag is up just in the latter case; each thread's queue ends in its only terminator and no data message is empty. |
| ListQuery.ListExact | src/master.c:379-400 | In every interleaving of threads and messages the number of records printed is min(L, matching), all for L = 0, and the printed multiset is contained in the matching records; there is one terminator for each thread. |
| EndToEnd.IndexAllowed | src/slave.c:920-943 | Files ruled out by the trees of the threads that get them hold no matching record, whatever the interleaving of the builds on each slave, if the filter is safe for the number of threads of every slave; for any view of the records the query keeps. |
| EndToEnd.Plan.SharesContents | src/slave.c:1084-1098 | Whatever the schedule of files over threads: a thread has a view in its memory exactly as often as there are positions of matching records with that view in the files it gets, and all memories together as often as in all files. Every matching record is in exactly one memory, once, although files are skipped. |
| EndToEnd.Plan.KeptCount | src/slave.c:534-546 | Of the records read, a view is written exactly as often as there are positions of matching records with that view. |
| EndToEnd.Plan.OnOneMachineContents | src/slave.c:534-546 | The one machine the distributed answers are compared with has every matching record of every file, once, and nothing else. |
| EndToEnd.SortQuery | src/slave.c:992-999 | From the files to the printed list: sort mode equals one machine that reads and sorts every file. |
| EndToEnd.AggregationQuery | src/master.c:679-683 | From the files to the master's memory: aggregation mode equals one machine that aggregates every file. |
| EndToEnd.TopNQuery | src/master.c:674-678 | From the files to the printed list: where the code's threshold suffices, in particular for the queries that are always exact with a bottom below 2^53, it prints the first records of the one machine's aggregation. |
| Wire.SendAll | src/slave.c:577-647 | Every source's first records go out as encoded messages of its own, none empty or too long, with a terminator. |
| Wire.GroupsArrived | src/master.c:323-406 | Whatever interleaving of the sources' byte messages arrives is an interleaving of their groups of records. |
| Wire.SortOverTheWire | src/master.c:640-660 | Sort mode as a whole: records encoded, sent through two buffers by every thread, received in any interleaving, parsed, decoded, sorted and cut are what one machine prints that reads and sorts every file. |
| Wire.Exchange | src/slave.c:577-647 | An exchange: whatever the interleaving of the byte messages, the master has received exactly the first records of every source, each source's in order. |
| Wire.AggregateOverTheWire | src/master.c:679-683 | Aggregation mode as a whole: from the files over encoded messages to the master's memory, which is that of one machine that reads and aggregates every file. |
| Wire.ListOverTheWire | src/master.c:379-400 | List mode as a whole: for every interleaving of the slaves' threads and of their byte messages, which are those of `ListSender.RunThread`, min(L, matching) records are printed, all of them matching. |
| ListSender.ReadAndSend | src/slave.c:413-513 | Reading a file with two buffers in turn takes exactly the steps of a thread of `ListMode`, with every look at the shared flag and counter and every change of them in a log: the bytes handed to MPI are the frames of the groups of records of those steps, and no buffer in flight is written. If no flag it saw was up and no counter it saw had reached the limit, what it sends are the matching records of the file, all and in order; otherwise each is sent or given up. It adds to the counter what it has sent. |
| ListPath.RunIsPath | src/slave.c:413-513 | In every interleaving of a slave's threads each thread takes steps of the kind its sender carries out; without a limit no look at the flag or the counter stops it. |
| ListPath.UnlimitedInOrder | src/slave.c:413-513 | Without a limit, in every interleaving, a thread that is done has sent exactly the matching records of the files it opened, in order. |
| ListSender.RunThread | src/slave.c:904-990 | The same for a whole thread: it opens the files it gets, each once and in order; if nothing it looked at stopped it, the records it sends are the matching records of those files, all and in order, ended by its terminator; otherwise each is sent or given up. All messages but the terminator are nonempty and fit a buffer. |
| ListPath.PathTakes | src/slave.c:413-513 | Along any steps at which no flag is seen up and no counter at the limit, what a thread has sent and holds grows by exactly the matching records of the files it opens, in order, and nothing is given up. |
| ListPath.PathKeeps | src/slave.c:413-513 | Along any steps, whatever is seen, each matching record of the files opened is sent, held or given up, as often as it is there. |
| ListPath.PathCounts | src/slave.c:452-454 | Along any steps, the additions to the shared counter amount to the records sent and counted. |
| WireTopN.TopNOverTheWire | src/master.c:665-689 | A Top-N query as a whole, each phase an exchange of encoded messages: it is a run of the protocol with the code's threshold, exact where that threshold suffices. |
| Bloom.PruneKeepsMeaning | src/bfindex.c:193-218 | With two operands, pruning (also of equal address children) keeps the evaluation. |
| Bloom.MatchIsContained | src/bfindex.c:338-362 | A matching record makes the tree true under any index without false negatives, if no visited OR lost exactly one operand. |
| Bloom.SoundShapes | src/bfindex.c:193-218 | Exact condition: for all filters of a shape (same AND/OR tree and same kinds of leaves) no file with a match is skipped, if and only if no tree is built or no visited OR has exactly one built operand. |
| Bloom.AddressFiltersSound | src/bfindex.c:404-419 | Filters made only of AND and OR over addresses are always sound, from any state of the shared counter and code. |
| Bloom.HalfOrSkipsMatches | src/bfindex.c:193-218 | Counterexample: `ip X or port > 1024` becomes the lookup of X alone and skips a file with a match, from any state with room for two addresses. |
| Bloom.BuiltTreesReduced | src/bfindex.c:261-277 | In a built tree every operator has two operands and no two equal address children. |
| Bloom.AddressLimit | src/bfindex.c:126-177 | All trees built one after another in a process, from whatever filters, hold together no more than the allowed number of addresses. |
| BloomThreads.StepInv | src/bfindex.c:126-177 | Every step of any thread (raising the shared count, storing an error, clearing the code, reading it) keeps the invariant: each thread has built exactly its first leaves within the limit, and the code is clear behind a thread in error only if another thread has cleared it in time. |
| BloomThreads.RunInv | src/slave.c:1073-1077 | The invariant holds in every interleaving of the threads' builds. |
| BloomThreads.ReadOkReachable | src/bfindex.c:404-419 | A thread that reads no error has a number of leaves within the limit that the condition knows. |
| BloomThreads.Reach | src/bfindex.c:126-177 | For every number the condition knows there is an interleaving in which a thread has it and reads no error. |
| BloomThreads.ThreadsSoundIff | src/slave.c:140-152 | For all filters of a shape no thread skips a file with a match, in any interleaving of `k` builds at the same time, if and only if a condition holds that can be evaluated from the filter and `k` before the query. |
| BloomThreads.AddressFiltersSafe | src/bfindex.c:126-177 | Filters of AND and OR over addresses only meet the condition for any number of threads, so they are sound in every interleaving. |
| BloomThreads.InTurn | src/slave.c:140-152 | Builds one after another are one of the interleavings: there every thread uses the tree of a build from the state the builds before it have left. |
| BloomThreads.FourthThreadSkips | src/bfindex.c:126-177 | Counterexample: `(ip a or ip b or ip c) and port > 1024` is sound for three threads in every interleaving, and not for four: if they build one after another the fourth looks up the first address alone and skips files that match the others. |
| BloomThreads.SecondThreadClears | src/bfindex.c:404-419 | Counterexample: `port > 1024 and (src ip a or src ip b/24)` is sound for one thread and for any number of builds one after another, but of two threads at the same time one finds the error of the netmask cleared by the other and skips files that match b/24. |
| BloomHeap.Builder.PruneOperSubtree | src/bfindex.c:193-218 | Pruning in place yields the pruned tree and releases exactly the nodes that drop out. |
| BloomHeap.Builder.BuildAddrNode | src/bfindex.c:126-177 | An address leaf is built, or refused with the count and the code updated, as specified. |
| BloomHeap.Builder.BuildOperNode | src/bfindex.c:229-278 | An operator node and its operands are built as specified, with nothing else left allocated. |
| BloomHeap.Builder.BuildNode | src/bfindex.c:291-326 | The built heap tree represents the specified tree; the nodes allocated are exactly those reachable from the root, each once. |
| BloomHeap.Builder.FreeTree | src/bfindex.c:422-433 | Every node of a tree is released exactly once and nothing else is. |
| BloomHeap.Builder.BfindexInit | src/bfindex.c:404-419 | The root is null exactly when the specification has no tree, and then nothing stays allocated. |
| BloomHeap.InitThreads | src/slave.c:140-152 | If the threads of a process build one after another, each gets the root of the tree specified for its build, and what stays allocated is exactly their nodes. |
| BloomHeap.TreeContains | src/bfindex.c:338-362 | Walking the heap tree evaluates the tree it represents. |
| BloomHeap.MayMatch | src/bfindex.c:494-508 | The answer is that of the tree under the index of the file, and a negative one means that no record of the file matches the filter; an index that cannot be loaded never gives one. |
| Calendar.LeapTerms | src/common.c:62-77 | The leap year terms, computed with shifts, masks and truncating division, are floors of the Gregorian rule for all years, also negative ones. |
| Calendar.TmDiffIsLinear | src/common.c:62-77 | The difference is a difference of positions on one time scale for any two times, normalised or not. |
| Calendar.TmDiffCountsTicks | src/common.c:62-77 | For normalised times the difference is `n` if and only if a clock that ticks through the proleptic Gregorian calendar gets from one to the other in `n` ticks. |
| Calendar.TmDiffIsPosix | src/common.c:62-77 | From 1970 on it is the difference of the formula in section 4.16 of POSIX.1-2017 Base Definitions. |
| Calendar.TmDiffFits | src/common.c:62-77 | Every intermediate value fits 32 bits if the years are 32 bit integers at most 67 apart: the quotient terms of each year, their differences, and every step from days to seconds. |
| Calendar.NormalSame | src/common.c:91-122 | Normalisation keeps the point in time and yields a normalised time. |
| Calendar.EpochIsPosix | src/common.c:91-122 | From 1970 on, the seconds counted are those of the formula in section 4.16 of POSIX.1-2017 Base Definitions. |
| Calendar.EpochCountsTicks | src/common.c:91-122 | A normalised time is `n` seconds after the epoch if and only if the calendar shows it `n` ticks after the start of 1970. |
| Calendar.FiveMinutes | src/arg_parse.c:682-689 | A normalised time is at a multiple of 300 seconds if and only if its seconds are 0 and its minutes a multiple of 5, before 1970 as well. |
| Intervals.AlignBegin | src/arg_parse.c:682-685 | The loop stops at the greatest multiple of 300 not above the time, on a full five minutes of the clock, within 300 iterations, also for negative epoch values. |
| Intervals.AlignEnd | src/arg_parse.c:686-689 | The loop stops at the least multiple of 300 not below the time, on a full five minutes of the clock, within 300 iterations. |
| Intervals.SetTimePoint | src/arg_parse.c:572-616 | The result is the one interval that contains the point; it begins on a full five minutes of the clock and its length is always 300. |
| Intervals.SetTimeRange | src/arg_parse.c:645-710 | Both ends are aligned outwards to full five minutes of the clock, and the range is refused exactly when the aligned range is empty or reversed. |
| Intervals.PathArray.AddPath | src/path_array.c:75-91 | The name is appended to the array, which grows as needed and keeps its contents. |
| Intervals.StartsEvenly | src/path_array.c:114-137 | The times visited are the interval starts, 300 seconds apart, normalised and before the end. |
| Intervals.InstantInOneInterval | src/path_array.c:114-137 | Every instant of the range lies in exactly one of the intervals visited. |
| Intervals.FillFromTime | src/path_array.c:103-138 | If every path fits its buffer the loop ends; an interval is picked exactly if its own path exists, and what is appended are the paths of the intervals picked, each once and in the order of their starts. |
| Intervals.PickedCount | src/path_array.c:119-136 | A path is appended as often as there are intervals whose path it is, if it exists, and not otherwise. |
| Intervals.FillEndsIff | src/path_array.c:117-124 | The loop ends if and only if the path of every interval start fits: on a path that does not fit it starts over without advancing. |
| Fields.FieldSet.AddToAll | src/fields.c:100-125 | A field is appended to the common array with its size, or refused exactly if the array is full. |
| Fields.FieldSet.AddAggrKey | src/fields.c:397-440 | Keys stay at the front of the common array; refused exactly if there are too many or the field cannot be a key; a repeated field changes nothing; a new key's slot gets the field and both alignments. |
| Fields.FieldSet.SetSortKey | src/fields.c:458-492 | The sort key refers to its aggregation key or follows the keys, with the given or the default direction and the aggregation function of its field (the minimum for a field that can only be a key); refused exactly if the field cannot be sorted by. |
| Fields.FieldSet.AddOutputField | src/fields.c:342-372 | Output fields follow in order, each slot with its field and the aggregation function of that field (the minimum for a field that can only be a key); refused exactly if there are too many; the "number of allowed fields exceeded" branch cannot be reached. |
| Fields.FieldSet.Check | src/fields.c:536-629 | The executable check decides exactly the declared consistency of keys, sort key, outputs, sizes and roles. |
| Fields.FieldSet.ValidIsConsistent | src/fields.c:536-629 | The invariant kept by the calls implies what the check decides. |
| Fields.FieldSet.AggregationHeader | src/output.c:1298-1361 | The header printed for aggregation lists exactly the common array, in its order. |
| Fields.FieldSet.SortHeader | src/output.c:1368-1399 | The header printed for sorting lists exactly the common array, in its order. |
| Fields.ParseFields | src/arg_parse.c:1305-1322 | After the keys, an optional sort key and the output fields, in this order, the common array is exactly those fields without repetition. Each key has the alignments given where its field came first; the sort key is the field asked for in the direction given, or else in that of the field; keys are not listed again as outputs, and every output has the function of its field. The check holds even when a call was refused. |
| Fields.InOrderHas | src/arg_parse.c:1305-1322 | Every field asked for is in the common array, and no other. |
| Accounting.GoalsReached | src/master.c:258-297 | In every arrival order no source's count exceeds its goal, and the sum of the counts reaches the sum of the goals exactly when every count has reached its goal. |
| Accounting.CountsAddUp | src/master.c:277-297 | The counts always add up to the number of reports received. |
| Accounting.CountReports | src/master.c:258-297 | The loop receives every report and ends with every count at its goal. |
| Accounting.SharedConserves | src/slave.c:255-266 | Atomic additions of the threads, interleaved in any way over all counters, lose and double nothing (modulo the counter width). |
| Accounting.ReducedTotal | src/master.c:777-783 | However the additions of each slave's threads are interleaved, the master's reduced total of a counter is the sum over all records counted by all threads of all slaves (modulo the counter width). |

## Left out

- TputLimits.LargeBottomSourcesIff: bottoms above 2^54, where `TputLimits.CodeExactIff` decides by the two roundings. A quotient that rounds to 2^64 does not fit the integer it is converted to.
- Tput.TputExact: does not model the wrap-around of 64 bit totals; a total that overflows is not a total.
- Intervals.FillFromTime: requires that every path fits, because the loop does not end otherwise (see `Intervals.FillEndsIff`).
- Intervals.SetTimePoint: starts from an epoch value already parsed; the parsing of dates depends on locale, clock and C library.
- Transport.SendRawMem: requires that one record with its prefix fits an empty buffer, which the source relies on for termination.
- ListSender.ReadAndSend: all records that match have one encoded size, as the fields of a query fix it.
- Bloom.MatchIsContained: address leaves are taken to be source or destination addresses, which is what the index holds.
- BloomHeap.InitThreads: the heap nodes of threads that build one after another, one of the interleavings of `BloomThreads`; nodes are private to a thread, what threads share is in `BloomThreads`.
- BloomThreads.ThreadsSoundIff: two increments of the address count at the same instant, of which one is lost.
- TputSession.TopN: the three phases are carried out one after another; that they cannot overlap is `TputProtocol.PhasesSeparated`, that the protocol carries the same records is `TputRecords.CompleteRun`.
- TputProtocol.Progress: every slave has at least one thread; a slave without files is not covered, since the number of its threads is implementation-defined.
- Calendar.TmDiffFits: times further apart than 67 years, for which seconds do not fit 32 bits.
- Accounting.CountReports: polling and printing of the progress bar.
- Aggregation.WriteAllConfluent: netmask alignment of address keys and the "fast aggregation" switch of libnf; a key is what the memory takes for one.
- The byte layout of a record inside its frame: an encoding is any one that can be undone for the records that fit the widths of the fields.
- Month and day of the month: a time holds the day of the year, which is what the arithmetic reads.
- Files that cannot be opened or read to the end, aborts and failing allocations.
- Formatting and printing of records, option parsing, directory walking, host and path names.
- Metadata mode, which sends no records; its counters are those of `Accounting`.
