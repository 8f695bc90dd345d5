# Verified models of the benchmark suite's core algorithms

This project models, in Dafny, the algorithms that the benchmark programs are built around, and proves what they
promise. `dafny verify dfyconfig.toml` checks all of it.

* **Work-stealing deque** (`WorkStealQueue`, `DequeCalls`): one owner pushes and pops at the tail, any number of
  stealers take from the head. Every labelled shared access is one step. The proof shows that each step is one event
  of an atomic deque or none, and that the calls of every schedule behave like atomic calls. The source's remark that
  only foreign threads write `head` does not hold of `SyncPush` and `SyncPop`; the invariant is that of the code.
* **Multi-producer multi-consumer ring** (`BufRing`, `RingCalls`): the configuration with both fixes. Registers wrap
  at 2^32; unbounded ticket counters ride along as history. The exact condition under which a step breaks the ring is
  proved, with runs from the empty ring that meet it: a thread must not be overtaken by 2^32 tickets inside one retry
  loop.
* **bzip2 codec**: Huffman lengths and their optimality (`HuffmanHeap`, `HuffmanTree`, `WeightedCodes`,
  `HuffmanLengths`), canonical codes (`CanonicalCode`), inverse Burrows-Wheeler transform (`InverseBwt`), segmented
  move-to-front list (`MtfSegments`), move-to-front and run symbols (`MtfCode`), bit streams (`BitStrings`,
  `BitStream`, `Fields`), run-length stage (`RunLength`), its checksum and the table of it (`Checksum`,
  `ChecksumTable`), block headers and whole blocks (`BlockHeader`, `BlockCodec`, `UniqueCode`, `SomeEncoding`,
  `BlockCapacity`), compressed streams with saved and restored state (`BlockStream`), sequences of calls and the file
  interface (`StreamCalls`), the bytes and checksums that a stream shows (`StreamFormat`), whole-stream decompression
  (`StreamCodec`), a bzip2 file known byte by byte that anchors the conventions of the format (`KnownBlock`,
  `KnownStream`), and the fallback quicksort (`FallbackSort`). The decompressor stores as many selectors as a block
  announces, but has places for 18002; when it overruns them is proved exactly, with a stream that makes it
  (`OverlongStream`).
* **Boyer-Moore search** (`BoyerMoore`). The match counter starts at 32, so the returned count is 32 more than the
  number of callbacks, against the function's own description; and the unsigned length difference wraps when the text
  is shorter than the pattern. The contract follows the code.
* **SWARM radix sort** (`Pardo`, `RadixSort`, `RadixProgress`), **barrier and reduction** (`Barrier`) and **skip-ahead
  generator** (`Randlc`). Three promises hold only under a condition, and the exact conditions are proved. The check
  after the sort expects ascending keys, which mixed signs break. The comment on `find_my_seed` promises a subsequence
  start that the code reaches only for power-of-two lengths. The comment on `randlc` promises a period of 2^44 that
  some odd multipliers miss.
* **Bounded buffer** (`BoundedBuffer`, `BufferCalls`) with condition variables.

Concurrent protocols are state machines: a `Step` function makes one shared access of one thread, `Exec` runs an
arbitrary schedule, and the theorems speak about every schedule. Accesses are sequentially consistent. Imperative code
is kept as methods over arrays and objects, each proved against a specification function or an invariant. `Arith`,
`Sequences`, `Permutation` and `Mutex` hold shared mathematics.

Parameters stand for what the model does not fix: the element type and default value of the deque, the checksum table,
the compression of a block as the list of bit fields it writes (in `BlockStream`; in `StreamCodec` any that write a
compressed form as `BlockCodec.Compress` does, called faithful), the plan of coding tables and selectors (in
`BlockCodec`), the sorted order of the rotations, the search callback (any function of the positions reported so far),
and the rounding of doubles (any function that leaves numbers of at most 53 bits alone).

## Model

| member | source | states |
|---|---|---|
| `WorkStealQueue.StepSound` | sctbench/chess/WorkStealQueueWithState.h:317-609 | every shared access of `Push`, `SyncPush`, `Pop`, `SyncPop` and `Steal` keeps the invariant and performs exactly the matching event (or none) of an atomic deque |
| `WorkStealQueue.OwnerSound` | sctbench/chess/WorkStealQueueWithState.h:367-609 | the same for every step of the owner |
| `WorkStealQueue.StealSound` | sctbench/chess/WorkStealQueueWithState.h:317-365 | the same for every step of any stealer |
| `WorkStealQueue.InitialInv` | sctbench/chess/WorkStealQueueWithState.h:279-288 | a new deque of power-of-two size satisfies the invariant, is empty and conserves its elements |
| `WorkStealQueue.EventConserves` | sctbench/chess/WorkStealQueueWithState.h:317-609 | each event of the atomic deque keeps pushed = returned + claimed + queued, as multisets |
| `WorkStealQueue.RunConserves` | sctbench/chess/WorkStealQueueWithState.h:317-609 | in every interleaving of one owner and any number of stealers nothing is lost, duplicated or invented: pushed = returned + claimed by an unfinished call + queued |
| `WorkStealQueue.ThiefKeepsClaim` | sctbench/chess/WorkStealQueueWithState.h:484-509 | writing the slot for a fast push changes no queued element and not the element a stealer has claimed but not yet read |
| `WorkStealQueue.PushWriteElemSound` | sctbench/chess/WorkStealQueueWithState.h:501-509 | a fast push that passed the size check performs no event when it writes its slot, even while a failing `Steal` has `head` one too high |
| `WorkStealQueue.WindowRenumber` | sctbench/chess/WorkStealQueueWithState.h:546-557 | renumbering the ring by `h & mask` keeps the sequence of queued elements |
| `WorkStealQueue.WindowEnlarge` | sctbench/chess/WorkStealQueueWithState.h:561-590 | the enlarged array holds the same queued sequence, starting at index 0 |
| `WorkStealQueue.CopyToLarger` | sctbench/chess/WorkStealQueueWithState.h:569-576 | the allocation and the two copy loops build exactly that array |
| `WorkStealQueue.SyncPushGrowSound` | sctbench/chess/WorkStealQueueWithState.h:561-590 | growing the ring, to twice its size or from one place to 1024, is invisible to the atomic deque |
| `WorkStealQueue.SyncPopResetSound` | sctbench/chess/WorkStealQueueWithState.h:453-466 | resetting `head` and `tail` of an empty deque is invisible to the atomic deque |
| `WorkStealQueue.StealClaimSound` | sctbench/chess/WorkStealQueueWithState.h:342-350 | a `Steal` that reads `tail` above its `h` performs the claim of the front element at that moment |
| `WorkStealQueue.StealFailsTruthfully` | sctbench/chess/WorkStealQueueWithState.h:344-357 | a `Steal` that goes on to restore `head` saw an empty deque, or one element that an undecided or failing `Pop` is after |
| `WorkStealQueue.PopFailsTruthfully` | sctbench/chess/WorkStealQueueWithState.h:413-474 | `Pop` returns nothing only from an empty deque, whose indices it has set back to 0 |
| `WorkStealQueue.PushTakesLock` | sctbench/chess/WorkStealQueueWithState.h:484-517 | `Push` takes the slow path only when the ring has no place left or `tail` has reached `MaxSize`, and the fast path only when at most `mask` elements are queued |
| `WorkStealQueue.AbortsExactlyWhenFull` | sctbench/chess/WorkStealQueueWithState.h:561-567 | `assert(newsize < MaxSize)` fails if and only if at least `mask` elements are queued and the ring may not be doubled |
| `WorkStealQueue.NoAssertionFails` | sctbench/chess/WorkStealQueueWithState.h:561-592 | no assertion fails in a run that never has 2^19 - 1 elements queued; `count < mask` never fails |
| `WorkStealQueue.RunBounds` | sctbench/chess/WorkStealQueueWithState.h:540-602 | from a power-of-two size below `MaxSize`, the ring stays a power of two of at most half of it and all indices within `MaxSize` |
| `WorkStealQueue.HolderCanStep` | sctbench/chess/WorkStealQueueWithState.h:128-216 | whoever holds the spin lock can take its next step |
| `DequeCalls.StealDecides` | sctbench/chess/WorkStealQueueWithState.h:342-357 | a `Steal` that has read `tail` fails only on an empty deque or on a single element that an undecided `Pop` is after; otherwise the front element is gone from the deque and is the one in the slot that the `Steal` goes on to read |
| `DequeCalls.PopDecides` | sctbench/chess/WorkStealQueueWithState.h:367-481 | a `Pop` that compares its `t` with `head` takes the back element, the one in the slot it goes on to read, or tries again under the lock, or fails there on an empty deque |
| `DequeCalls.RunLinearizes` | sctbench/chess/WorkStealQueueWithState.h:317-609 | every run has an explanation by atomic deque calls: each call of the schedule, with its own argument, takes effect once between its start and its return, `Push` at the back, `Pop` from the back, `Steal` from the front, and returns exactly what that effect gave; a `Pop` fails only on an empty deque, a `Steal` only there or on a single element that a `Pop` is after |
| `DequeCalls.OwnerCallsEnd` | sctbench/chess/WorkStealQueueWithState.h:367-609 | every step of a `Push` or `Pop` that does not wait for the lock brings it closer to its return, at most 14 steps away, or aborts |
| `DequeCalls.StealCallsEnd` | sctbench/chess/WorkStealQueueWithState.h:317-365 | the same for a `Steal`, at most 6 steps away |
| `BufRing.StepKeepsInv` | buf_ring/buf_ring.h:78-205 | a step of an enqueuer or dequeuer with 32-bit registers keeps the ring invariant if and only if it is not an overrun: a compare-and-set on a full (or empty) ring whose head has come back to the register the thread read, after reads that do not show it |
| `BufRing.RunInv` | buf_ring/buf_ring.h:78-205 | the invariant holds at every moment of a run if and only if no step of the run overruns |
| `BufRing.RunIsFifo` | buf_ring/buf_ring.h:93-139 | in every run without an overrun `cons_tail <= cons_head <= prod_tail <= prod_head <= cons_tail + size`, and the values returned are exactly the first values enqueued, in ticket order |
| `BufRing.TicketsMatch` | buf_ring/buf_ring.h:163-204 | the dequeuer with ticket `k` returns the value of the enqueuer with ticket `k` |
| `BufRing.TicketsUnique` | buf_ring/buf_ring.h:114-117 | no ticket is held by two threads |
| `BufRing.EnqCasKeepsInv` | buf_ring/buf_ring.h:94-117 | the compare-and-set with stale reads draws a ticket beyond `cons_tail + size` if and only if it overruns |
| `BufRing.FreshIsSafe` | buf_ring/buf_ring.h:93-117 | a thread that fewer than 2^32 tickets have overtaken since its read does not overrun |
| `BufRing.FreshRunIsSafe` | buf_ring/buf_ring.h:93-182 | so a run in which no thread is overtaken by 2^32 tickets inside its retry loop has no overrun |
| `BufRing.DeqCasKeepsInv` | buf_ring/buf_ring.h:165-182 | the compare-and-set with stale reads draws a ticket of an entry not yet published if and only if it overruns |
| `BufRing.EnqWriteKeepsInv` | buf_ring/buf_ring.h:122-126 | writing the slot of a drawn ticket disturbs no other unread entry |
| `BufRing.EnqFailsTruthfully` | buf_ring/buf_ring.h:94-106 | `ENOBUFS` is returned if and only if the two tickets read are a size apart modulo 2^32; then the ring was full when `br_cons_tail` was read, unless 2^32 - size tickets were drawn between the two reads |
| `BufRing.DeqFailsTruthfully` | buf_ring/buf_ring.h:165-177 | `NULL` is returned if and only if the two tickets read are equal modulo 2^32; then no published entry was unclaimed when `br_prod_tail` was read, unless 2^32 tickets were drawn between the two reads |
| `BufRing.ProducersAreNeverStuck` | buf_ring/buf_ring.h:134-139 | while a producer ticket is unpublished, the holder of the oldest one exists and can step |
| `BufRing.ConsumersAreNeverStuck` | buf_ring/buf_ring.h:198-201 | the same for consumers |
| `BufRing.OvertakenPutOverfills` | buf_ring/buf_ring.h:93-117 | the bound cannot be dropped: for every size there is a run of two threads from the empty ring in which a put overtaken by exactly 2^32 tickets overfills the ring |
| `BufRing.OvertakenPutFails` | buf_ring/buf_ring.h:94-106 | and one in which 2^32 - size tickets between its two reads make a put return `ENOBUFS` from an empty ring |
| `BufRing.OvertakenGetUnderruns` | buf_ring/buf_ring.h:163-182 | and one in which a get overtaken by exactly 2^32 tickets takes from an empty ring |
| `BufRing.OvertakenGetFails` | buf_ring/buf_ring.h:165-177 | and one in which 2^32 tickets between its two reads make a get return `NULL` while an entry is published |
| `RingCalls.RunLinearizes` | buf_ring/buf_ring.h:78-205 | every run without an overrun has an explanation by atomic queue calls: each enqueue of the schedule appends its own argument once between its start and its return, each dequeue removes the front and returns it, and in a run in which no thread is overtaken by 2^32 - size tickets between its two reads a refusal means a full queue (`ENOBUFS`) or no published entry (`NULL`) at that moment |
| `RingCalls.ArgumentsEnter` | buf_ring/buf_ring.h:78-128 | the threads recorded by ticket are those that drew them, and the values recorded are the arguments of the calls with which these threads had left their idle states |
| `RingCalls.RunReturnsArguments` | buf_ring/buf_ring.h:163-205 | so the values returned are arguments of enqueue calls of the schedule, in ticket order |
| `RingCalls.CallsEnd` | buf_ring/buf_ring.h:93-201 | every step of a call brings it closer to its return, at most 6 steps away, unless another thread drew the ticket it was after or an earlier ticket is unpublished |
| `HuffmanHeap.UpHeap` | sctbench/inspect_benchmarks/bzip2smp.comb.c:5602-5611 | moving an entry up restores the heap order and keeps the nodes |
| `HuffmanHeap.DownHeap` | sctbench/inspect_benchmarks/bzip2smp.comb.c:5613-5628 | moving an entry down restores the heap order and keeps the nodes |
| `HuffmanHeap.ExtractMin` | sctbench/inspect_benchmarks/bzip2smp.comb.c:5670-5671 | takes out a node of least weight and leaves a heap of the others |
| `HuffmanHeap.Insert` | sctbench/inspect_benchmarks/bzip2smp.comb.c:5676-5678 | leaves a heap of the old nodes and the new one |
| `HuffmanTree.MergeRoots` | sctbench/inspect_benchmarks/bzip2smp.comb.c:5669-5679 | merging the two lightest roots keeps total weight, links and the rule that a height costs a Fibonacci count, so packed heights never overflow 8 bits |
| `HuffmanLengths.BuildTree` | sctbench/inspect_benchmarks/bzip2smp.comb.c:5653-5679 | the heap loop builds a tree over all symbols whose single root is the last node |
| `HuffmanTree.TreeLengths` | sctbench/inspect_benchmarks/bzip2smp.comb.c:5683-5690 | code lengths read off the parent links have Kraft sum exactly one |
| `HuffmanTree.TooLongIsHeavy` | sctbench/inspect_benchmarks/bzip2smp.comb.c:5689-5692 | a code longer than `maxLen` implies a total weight of at least a Fibonacci number |
| `WeightedCodes.MergeBound` | sctbench/inspect_benchmarks/bzip2smp.comb.c:5669-5679 | merging two lightest entries of a set loses nothing: a lower bound on the cost of all codes of the merged set, plus the merged weight, bounds all codes of the set |
| `HuffmanTree.TreeBound` | sctbench/inspect_benchmarks/bzip2smp.comb.c:5669-5679 | every code for the roots at any stage of the loop costs at least the weights still to be merged |
| `HuffmanTree.TreeCost` | sctbench/inspect_benchmarks/bzip2smp.comb.c:5683-5690 | the depths in the finished tree cost exactly that |
| `HuffmanTree.TreeOptimal` | sctbench/inspect_benchmarks/bzip2smp.comb.c:5653-5690 | so the depths of the leaves are least in weighted length among all length vectors with Kraft sum at most one |
| `HuffmanLengths.RescaleShrinks` | sctbench/inspect_benchmarks/bzip2smp.comb.c:5711-5715 | each rescaling strictly lowers the total weight while some weight exceeds two |
| `HuffmanLengths.RescaledIs` | sctbench/inspect_benchmarks/bzip2smp.comb.c:5711-5715 | after r rescalings a count is its quotient by 2^r and one or two more |
| `HuffmanLengths.SeventeenIsEnough` | sctbench/inspect_benchmarks/bzip2smp.comb.c:1607-1611 | 17 bits are enough for every alphabet of at most 258 symbols |
| `HuffmanLengths.MakeCodeLengths` | sctbench/inspect_benchmarks/bzip2smp.comb.c:5632-5717 | terminates for every frequency vector and returns lengths in 1..maxLen whose Kraft sum is exactly one and whose weighted length is least for the frequencies after the rescalings made; a rescaling is made only when some best code for the counts is too long, and none while the total is below the Fibonacci number that a longer code needs |
| `CanonicalCode.AssignCodes` | sctbench/inspect_benchmarks/bzip2smp.comb.c:5721-5735 | assigns each symbol its canonical code |
| `CanonicalCode.CreateDecodeTables` | sctbench/inspect_benchmarks/bzip2smp.comb.c:5739-5769 | fills `limit`, `base` and `perm` for the canonical code |
| `CanonicalCode.LevelFits` | sctbench/inspect_benchmarks/bzip2smp.comb.c:5729-5734 | under the Kraft inequality all codes of a length fit into that length |
| `CanonicalCode.Decode` | sctbench/inspect_benchmarks/bzip2smp.comb.c:3230-3245 | for any code lengths, prefix code or not, the limit/base/perm loop returns a symbol if and only if the bits begin with its code, and consumes exactly its length |
| `CanonicalCode.PrefixFree` | sctbench/inspect_benchmarks/bzip2smp.comb.c:5721-5735 | for any code lengths, no bit string begins with the codes of two symbols, and a code with which one begins fits its length |
| `CanonicalCode.Complete` | sctbench/inspect_benchmarks/bzip2smp.comb.c:5721-5769 | when the Kraft sum is one, every long enough bit string begins with some code |
| `InverseBwt.LinkedSorted` | sctbench/inspect_benchmarks/bzip2smp.comb.c:3683-3687 | following the links of the last column lists the rotations in sorted order again, whatever the order of equal rotations |
| `InverseBwt.LinkMeans` | sctbench/inspect_benchmarks/bzip2smp.comb.c:3683-3687 | the link of row k leads to the row whose rotation starts one byte later |
| `InverseBwt.FindOrigin` | sctbench/inspect_benchmarks/bzip2smp.comb.c:3090-3095 | finds the row of the unrotated block |
| `InverseBwt.FillCftab` | sctbench/inspect_benchmarks/bzip2smp.comb.c:3630-3633 | `cftab[c]` counts the bytes below `c` |
| `InverseBwt.ComputeTt` | sctbench/inspect_benchmarks/bzip2smp.comb.c:3682-3687 | each `tt` entry holds its byte and the inverse of the stable rank |
| `InverseBwt.FollowBlock` | sctbench/inspect_benchmarks/bzip2smp.comb.c:843-846 | the bytes met by following the links from the row of the block are the block, periodic blocks included |
| `InverseBwt.Unwind` | sctbench/inspect_benchmarks/bzip2smp.comb.c:843-846 | following `tt` from any origin for any number of steps meets exactly the bytes of the linked rows |
| `MtfSegments.Initialise` | sctbench/inspect_benchmarks/bzip2smp.comb.c:3501-3513 | the segments represent 0..255 |
| `MtfSegments.MoveInFirst` | sctbench/inspect_benchmarks/bzip2smp.comb.c:3565-3580 | moving an entry of the first segment is a move to front of the plain list |
| `MtfSegments.MoveFromLater` | sctbench/inspect_benchmarks/bzip2smp.comb.c:3581-3598 | moving an entry of a later segment is a move to front of the plain list |
| `MtfSegments.Rebuild` | sctbench/inspect_benchmarks/bzip2smp.comb.c:3599-3608 | rebuilding the segments at the top of the array keeps the list |
| `MtfSegments.TakeNth` | sctbench/inspect_benchmarks/bzip2smp.comb.c:3559-3611 | the 16 segments always represent the plain 256-entry list, and the entry asked for is returned |
| `MtfCode.MakeMapsEncoder` | sctbench/inspect_benchmarks/bzip2smp.comb.c:1266-1276 | ranks of the bytes in use |
| `MtfCode.MakeMapsDecoder` | sctbench/inspect_benchmarks/bzip2smp.comb.c:3170-3180 | undoes the ranks |
| `MtfCode.FlushRun` | sctbench/inspect_benchmarks/bzip2smp.comb.c:1334-1348 | a pending run is written as digits that stand for exactly its length, no longer than the run |
| `MtfCode.FindAndMove` | sctbench/inspect_benchmarks/bzip2smp.comb.c:1349-1366 | one pass finds the rank and moves it to the front |
| `MtfCode.GenerateMtfValues` | sctbench/inspect_benchmarks/bzip2smp.comb.c:1280-1390 | writing 16-bit symbols over the 32-bit words of `ptr` still being read, the symbols stand for the last column, end with EOB and only there, are counted correctly and number at most nblock + 1 |
| `MtfCode.ReadRun` | sctbench/inspect_benchmarks/bzip2smp.comb.c:3524-3534 | adds up a run of RUNA and RUNB digits, noticing when 32 bits would overflow |
| `MtfCode.FillRun` | sctbench/inspect_benchmarks/bzip2smp.comb.c:3546-3551 | writes the run, or fails exactly when the block would overflow |
| `MtfCode.DecodeMtf` | sctbench/inspect_benchmarks/bzip2smp.comb.c:3515-3622 | writes what the symbols stand for and counts its bytes; reports an error only when the block would overflow |
| `BitStream.BitWriter.W` | sctbench/inspect_benchmarks/bzip2smp.comb.c:1233-1239 | appends the n low bits of v to everything written |
| `BitStream.BitWriter.NeedW` | sctbench/inspect_benchmarks/bzip2smp.comb.c:1218-1227 | moves whole bytes out of the register without changing the bits written |
| `BitStream.BitWriter.PutUInt32` | sctbench/inspect_benchmarks/bzip2smp.comb.c:1243-1249 | appends 32 bits |
| `BitStream.BitWriter.FinishWrite` | sctbench/inspect_benchmarks/bzip2smp.comb.c:1206-1214 | the bytes stored are the bits written, padded with fewer than eight zeros |
| `BitStream.BitReader.GetBits` | sctbench/inspect_benchmarks/bzip2smp.comb.c:3186-3208 | returns the next n bits, or stops without losing any when the input runs out |
| `Checksum.UpdateDivides` | sctbench/inspect_benchmarks/bzip2smp.comb.c:551-556 | one look into the table divides eight more message bits by the CRC-32 polynomial 0x04c11db7 |
| `Checksum.CrcDivides` | sctbench/inspect_benchmarks/bzip2smp.comb.c:1032-1037 | so with a table of the remainders of all bytes the checksum of any message is the remainder of that bit-by-bit division of its bits, started from all ones |
| `ChecksumTable.CrcTableIs` | sctbench/inspect_benchmarks/bzip2smp.comb.c:1039-1107 | the 256 constants of the source are these remainders |
| `ChecksumTable.SourceDivides` | sctbench/inspect_benchmarks/bzip2smp.comb.c:551-556 | so the checksum that the source computes is the CRC-32 remainder, for every message |
| `RunLength.AddKeeps` | sctbench/inspect_benchmarks/bzip2smp.comb.c:4083-4107 | taking a byte appends it to what the block and the pending run stand for, and keeps short runs separated |
| `RunLength.FlushKeeps` | sctbench/inspect_benchmarks/bzip2smp.comb.c:4075-4079 | flushing changes nothing that the block stands for |
| `RunLength.CarryKeeps` | sctbench/inspect_benchmarks/bzip2smp.comb.c:3934-3944 | carrying the pending run into a new block splits what the block stands for |
| `RunLength.BlockBuffer.AddCharToBlock` | sctbench/inspect_benchmarks/bzip2smp.comb.c:4083-4107 | implements taking a byte; block bytes, `inUse` and checksum stay those of the coded runs |
| `RunLength.BlockBuffer.AddPairToBlock` | sctbench/inspect_benchmarks/bzip2smp.comb.c:4039-4070 | codes the pending run into at most five bytes |
| `RunLength.BlockBuffer.FlushRl` | sctbench/inspect_benchmarks/bzip2smp.comb.c:4075-4079 | implements flushing |
| `RunLength.BlockBuffer.PrepareNewBlock` | sctbench/inspect_benchmarks/bzip2smp.comb.c:3934-3944 | empties the block and keeps the pending run |
| `RunLength.ExpandCoded` | sctbench/inspect_benchmarks/bzip2smp.comb.c:4538-4625 | reading a block of coded runs gives back their bytes |
| `RunLength.Unpacker.StartRun` | sctbench/inspect_benchmarks/bzip2smp.comb.c:4586-4606 | reads the next run of the block, with its full length |
| `RunLength.Unpacker.Unpack` | sctbench/inspect_benchmarks/bzip2smp.comb.c:4538-4625 | every call writes the next bytes, as many as fit, and reports corruption if and only if a block that ends in four equal bytes without a count is exhausted |
| `RunLength.UnpackInPieces` | sctbench/inspect_benchmarks/bzip2smp.comb.c:4538-4625 | any sequence of output buffers delivers the same bytes, in order, with their checksum |
| `RunLength.RunsRoundTrip` | sctbench/inspect_benchmarks/bzip2smp.comb.c:4039-4070 | a block made by the encoder expands to the original bytes, and the recorded checksum is theirs |
| `BlockStream.SplitKeeps` | sctbench/inspect_benchmarks/bzip2smp.comb.c:4112-4152 | for every input the finished blocks and the pending run stand for exactly that input |
| `BlockStream.EndedKeeps` | sctbench/inspect_benchmarks/bzip2smp.comb.c:4218-4237 | the blocks of a stream stand for its whole input, and each can be expanded |
| `BlockStream.FinishKeeps` | sctbench/inspect_benchmarks/bzip2smp.comb.c:4218-4229 | so do the blocks when the last bytes come together with the request to finish |
| `BlockStream.BlockSizes` | sctbench/inspect_benchmarks/bzip2smp.comb.c:4017 | no block exceeds 100000 * blockSize100k - 10 bytes, even after the final flush, so the size check at line 3547 accepts it |
| `BlockStream.BlocksFull` | sctbench/inspect_benchmarks/bzip2smp.comb.c:4017 | every block but the last has at least 100000 * blockSize100k - 19 bytes |
| `BlockStream.FinishMatters` | sctbench/inspect_benchmarks/bzip2smp.comb.c:4218-4243 | supplying the last bytes with BZ_FINISH gives the same blocks as supplying them before if and only if the last byte does not fill the block; otherwise it gives one block less |
| `StreamCalls.FinishBytes` | sctbench/inspect_benchmarks/bzip2smp.comb.c:4218-4243 | the same equivalence for the compressed bytes, for every self-delimiting block compressor |
| `StreamCalls.FinishShows` | sctbench/inspect_benchmarks/bzip2smp.comb.c:4218-4243 | for every level, an input on which the bytes differ |
| `StreamCalls.StreamDetermines` | sctbench/inspect_benchmarks/bzip2smp.comb.c:1806-1856 | the bytes of a stream determine its blocks |
| `BlockStream.Stream.CopyInput` | sctbench/inspect_benchmarks/bzip2smp.comb.c:4112-4152 | takes input until it runs out or the block is full |
| `BlockStream.Stream.CompressBlockCompute` | sctbench/inspect_benchmarks/bzip2smp.comb.c:1785-1804 | finalises the block checksum and combines it into that of the stream |
| `BlockStream.Stream.CompressBlockSave` | sctbench/inspect_benchmarks/bzip2smp.comb.c:1806-1856 | writes header, block and trailer as due |
| `BlockStream.Stream.StoreBlock` | sctbench/inspect_benchmarks/bzip2smp.comb.c:4396-4411 | continues a stream whose earlier blocks are already written |
| `BlockStream.Stream.SaveStateBeforeBlocksort` | sctbench/inspect_benchmarks/bzip2smp.comb.c:4335-4351 | the state for the next block, taken before compression |
| `BlockStream.Stream.RestoreState` | sctbench/inspect_benchmarks/bzip2smp.comb.c:4353-4364 | continues from it |
| `BlockStream.Stream.RestoreOutputState` | sctbench/inspect_benchmarks/bzip2smp.comb.c:4375-4382 | continues with the bits left in the register |
| `BlockStream.Compressor.CopyOutput` | sctbench/inspect_benchmarks/bzip2smp.comb.c:4157-4179 | hands out the next bytes while there is room |
| `BlockStream.Compressor.NextBlock` | sctbench/inspect_benchmarks/bzip2smp.comb.c:3934-3944 | starts the next block |
| `BlockStream.Compressor.InputStep` | sctbench/inspect_benchmarks/bzip2smp.comb.c:4218-4246 | takes input and compresses the block when it is full or the last; the block never exceeds the decoder's limit |
| `BlockStream.Compressor.HandleCompress` | sctbench/inspect_benchmarks/bzip2smp.comb.c:4197-4253 | terminates, and stops only for lack of input or of space or at the end |
| `BlockStream.Compressor.Compress` | sctbench/inspect_benchmarks/bzip2smp.comb.c:4257-4333 | every call, every return code: BZ_STREAM_END is returned if and only if an accepted request to finish has room for the rest of the stream, and then the bytes produced by all calls are the stream of the bytes consumed by all calls; refused calls change nothing |
| `BlockStream.ReadBlock` | sctbench/inspect_benchmarks/bzip2smp.comb.c:6243-6296 | feeds one stream until its block is full or the input ends, for every chunking |
| `BlockStream.OneStream` | sctbench/inspect_benchmarks/bzip2smp.comb.c:6237-6314 | one block in a stream of its own leaves saved states that continue the whole stream |
| `BlockStream.FinishStream` | sctbench/inspect_benchmarks/bzip2smp.comb.c:5976-5986 | compressing and storing a block with the output state of the previous one continues the stream |
| `BlockStream.CompressInStreams` | sctbench/inspect_benchmarks/bzip2smp.comb.c:6237-6314 | one stream per block produces the stream of the whole input, for every chunking |
| `StreamCalls.FinishCalls` | sctbench/inspect_benchmarks/bzip2smp.comb.c:4303-4329 | any sequence of BZ_FINISH calls, the first bringing the last input, reaches the end if and only if their room together is enough for the stream |
| `StreamCalls.MakeCalls` | sctbench/inspect_benchmarks/bzip2smp.comb.c:4257-4333 | any sequence of calls, with any input and any room, finishes if and only if the room is enough, and then its output is the stream of its input |
| `StreamCalls.Write` | sctbench/inspect_benchmarks/bzip2smp.comb.c:4911-4952 | `BZ2_bzWrite` takes the whole buffer, or fails exactly when the stream is not running and the buffer is not empty |
| `StreamCalls.WriteClose` | sctbench/inspect_benchmarks/bzip2smp.comb.c:4968-5010 | `BZ2_bzWriteClose64` always reaches the end of the stream |
| `StreamCalls.WriteAll` | sctbench/inspect_benchmarks/bzip2smp.comb.c:4911-5010 | so writing pieces and closing always gives the stream of the whole input |
| `StreamCalls.BuffToBuffCompress` | sctbench/inspect_benchmarks/bzip2smp.comb.c:5194-5242 | the one-call compressor succeeds if and only if the destination holds the stream of the input finished at once |
| `BlockStream.StreamUnique` | sctbench/inspect_benchmarks/bzip2smp.comb.c:1806-1856 | a stream is determined by its blocks, byte for byte |
| `StreamCalls.SameBytes` | sctbench/inspect_benchmarks/bzip2smp.comb.c:6237-6314 | for every input, however cut into pieces and chunks, the sequential and the one-stream-per-block compressor produce the same bytes |
| `StreamCalls.SameBytesFromCalls` | sctbench/inspect_benchmarks/bzip2smp.comb.c:6237-6314 | the same for arbitrary finished calls, if and only if the last byte does not both fill a block and come with the request to finish |
| `BlockCodec.MakeTable` | sctbench/inspect_benchmarks/bzip2smp.comb.c:1609-1652 | frequencies give a code whose Kraft sum is exactly one, with matching encoding and decoding tables |
| `BlockCodec.FewSelectors` | sctbench/inspect_benchmarks/bzip2smp.comb.c:1615-1618 | n symbols have exactly one selector for every 50 begun; assertion 3003: up to 900001 symbols need at most 18001 |
| `BlockHeader.WriteMapping` | sctbench/inspect_benchmarks/bzip2smp.comb.c:1669-1686 | writes the two-level map of bytes in use |
| `BlockHeader.ReadMapping` | sctbench/inspect_benchmarks/bzip2smp.comb.c:3409-3424 | returns a mapping table if and only if the bits hold one, and then exactly that one; otherwise asks for input |
| `BlockHeader.SelectorMtf` | sctbench/inspect_benchmarks/bzip2smp.comb.c:1621-1638 | the rank of every selector in the most-recently-used list of tables |
| `BlockHeader.WriteSelectors` | sctbench/inspect_benchmarks/bzip2smp.comb.c:1692-1699 | writes the counts and the ranks in unary |
| `BlockHeader.ReadSelectors` | sctbench/inspect_benchmarks/bzip2smp.comb.c:3429-3457 | whatever it accepts is what the bits hold, every selector list of at most 18002 is read back, and the arrays of 18002 places are overrun if and only if the 15-bit count exceeds 18002 and 18003 ranks follow before the bits end or are malformed |
| `BlockHeader.WriteLengths` | sctbench/inspect_benchmarks/bzip2smp.comb.c:1706-1714 | writes the code lengths of a table as steps up and down |
| `BlockHeader.ReadLengths` | sctbench/inspect_benchmarks/bzip2smp.comb.c:3461-3471 | reads back exactly the lengths written; whatever it accepts lies in 1..20 |
| `BlockCodec.WriteCodes` | sctbench/inspect_benchmarks/bzip2smp.comb.c:1719-1768 | writes each symbol with the table of its group of 50 |
| `BlockCodec.ReadSymbols` | sctbench/inspect_benchmarks/bzip2smp.comb.c:3217-3245 | for every symbol sequence that the bits encode, reads exactly that sequence and consumes exactly its bits |
| `BlockCodec.SendMtfValues` | sctbench/inspect_benchmarks/bzip2smp.comb.c:1659-1769 | selectors, at most 18001, tables and codes of the symbols, for every plan |
| `BlockCodec.Compress` | sctbench/inspect_benchmarks/bzip2smp.comb.c:1785-1842 | writes a compressed form of the block: origin, map, selectors, tables and codes of the symbols of the last column, for every sorted order and every plan |
| `BlockCodec.DecodeTable` | sctbench/inspect_benchmarks/bzip2smp.comb.c:3474-3490 | decoding tables for any received lengths; they decode the code of the table the lengths came from |
| `BlockCodec.ReadTables` | sctbench/inspect_benchmarks/bzip2smp.comb.c:3459-3472 | reads back the lengths of all tables |
| `BlockCodec.ReadPreface` | sctbench/inspect_benchmarks/bzip2smp.comb.c:3396-3490 | reads back everything that precedes the symbols of a compressed block; overruns the selector arrays exactly behind an accepted origin and a mapping table with some byte in use |
| `BlockCodec.ReadColumn` | sctbench/inspect_benchmarks/bzip2smp.comb.c:3492-3622 | decodes the symbols into the last column, consuming exactly their bits |
| `BlockCodec.Decompress` | sctbench/inspect_benchmarks/bzip2smp.comb.c:3396-3699 | every compressed form of a block, of at most 18002 selectors, decompresses to the block, and exactly its bits are consumed, whatever stands before and after it; the exact condition for overrunning the selector arrays |
| `BlockCodec.DecompressEncoding` | sctbench/inspect_benchmarks/bzip2smp.comb.c:3396-3699 | the same without naming how the block was compressed |
| `BlockCodec.RoundTrip` | sctbench/inspect_benchmarks/bzip2smp.comb.c:1785-1842 | compressing and decompressing gives the block back, for every block, every sorted order of its rotations and every plan |
| `UniqueCode.BlockUnique` | sctbench/inspect_benchmarks/bzip2smp.comb.c:1806-1842 | a bit string begins with the compressed form of at most one block |
| `UniqueCode.FaithfulDelimits` | sctbench/inspect_benchmarks/bzip2smp.comb.c:1806-1842 | so no compressed block begins the compressed form of another, for every compressor that writes compressed forms |
| `UniqueCode.FaithfulFinish` | sctbench/inspect_benchmarks/bzip2smp.comb.c:4218-4243 | hence for every such compressor the bytes show how the stream was finished exactly when the last byte fills the block |
| `SomeEncoding.FaithfulExists` | sctbench/inspect_benchmarks/bzip2smp.comb.c:1785-1842 | there is such a compressor for every level and checksum table |
| `BlockCapacity.EncodingFits` | sctbench/inspect_benchmarks/bzip2smp.comb.c:1806-1842 | no compressed form of a block of n bytes exceeds 168748 + 20 n bits |
| `BlockCapacity.SaveInPlace` | sctbench/inspect_benchmarks/bzip2smp.comb.c:1806-1856 | so a block, written with header and trailer over the array that held it, stays within its 4 * (100000 * blockSize100k + 34) bytes |
| `StreamCodec.ReadHeader` | sctbench/inspect_benchmarks/bzip2smp.comb.c:3340-3352 | accepts exactly the headers of levels 1 to 9 |
| `StreamCodec.ReadMagic` | sctbench/inspect_benchmarks/bzip2smp.comb.c:3365-3378 | tells exactly a further block from the end of the stream |
| `StreamCodec.ReadBlock` | sctbench/inspect_benchmarks/bzip2smp.comb.c:3384-3701 | a written block is read, expanded and accepted; whatever is accepted has the checksum stored with it; the exact condition for overrunning the selector arrays |
| `StreamCodec.ExpandAll` | sctbench/inspect_benchmarks/bzip2smp.comb.c:4764-4787 | expanding in pieces gives the whole expansion and its checksum, or finds it corrupt |
| `StreamCodec.Decompress` | sctbench/inspect_benchmarks/bzip2smp.comb.c:4755-4800 | every stream that a compressor of compressed forms can write decompresses to the bytes of its blocks; for any input, reaching the end implies that every stored block checksum is that of the bytes delivered for it and that the stored combined checksum matches; an overrun implies accepted blocks followed by an overlong one |
| `OverlongStream.OverlongExists` | sctbench/inspect_benchmarks/bzip2smp.comb.c:3429-3442 | for every level, a stream on which the arrays are overrun |
| `StreamCodec.DecompressAfter` | sctbench/inspect_benchmarks/bzip2smp.comb.c:4755-4800 | so every finished sequence of calls decompresses to the bytes it was given, however it was finished |
| `StreamCodec.RoundTrip` | sctbench/inspect_benchmarks/bzip2smp.comb.c:6237-6314 | compressing by the file interface or with one stream per block, and decompressing, gives the input back |
| `StreamFormat.NotBits` | sctbench/inspect_benchmarks/bzip2smp.comb.c:546-549 | the stored checksum is the register with each of its 32 bits inverted |
| `StreamFormat.BlockCrcIs` | sctbench/inspect_benchmarks/bzip2smp.comb.c:1785-1791 | so with the table of the source the checksum stored for a block is the complement of the CRC-32 remainder of its plain bytes |
| `StreamFormat.RotateBits` | sctbench/inspect_benchmarks/bzip2smp.comb.c:1790-1791 | rotating moves every bit up one place and the top bit to the bottom |
| `StreamFormat.CombinedBits` | sctbench/inspect_benchmarks/bzip2smp.comb.c:1790-1791 | bit by bit, the checksum of a stream is the parity of its blocks' checksums, each rotated once for every later block |
| `StreamFormat.EmptyStream` | sctbench/inspect_benchmarks/bzip2smp.comb.c:1806-1856 | the fourteen bytes of the stream of no blocks, for every level |
| `StreamFormat.StreamBegins` | sctbench/inspect_benchmarks/bzip2smp.comb.c:1806-1842 | the first fourteen bytes of every other stream: header, block mark, and the first block's checksum, highest byte first |
| `KnownBlock.WordEncoded` | sctbench/inspect_benchmarks/bzip2smp.comb.c:1806-1842 | the 118 bits that stand for the word `banana` in a bzip2 file are a compressed form of it |
| `KnownStream.WordStream` | sctbench/inspect_benchmarks/bzip2smp.comb.c:1806-1856 | a faithful compressor of level 9 with the table of the source can write exactly the 39 bytes of that file for the word |
| `KnownStream.ReadFile` | sctbench/inspect_benchmarks/bzip2smp.comb.c:4755-4800 | decompressing those 39 bytes gives the word |
| `FallbackSort.Insert` | sctbench/inspect_benchmarks/bzip2smp.comb.c:2049-2065 | inserting by steps of a gap permutes only the range, and with gap one extends the sorted part |
| `FallbackSort.SimpleSort` | sctbench/inspect_benchmarks/bzip2smp.comb.c:2039-2066 | permutes only fmap[lo..hi] and sorts it by eclass |
| `FallbackSort.Gather` | sctbench/inspect_benchmarks/bzip2smp.comb.c:2139-2169 | gathers smaller keys low, larger keys high and equal keys at both ends; the scan ends with unHi = unLo - 1 |
| `FallbackSort.Partition` | sctbench/inspect_benchmarks/bzip2smp.comb.c:2139-2177 | splits the range into smaller, equal and larger keys for every pivot value |
| `FallbackSort.Depth` | sctbench/inspect_benchmarks/bzip2smp.comb.c:2108-2118 | a stack in which every range is at least as long as all above it together is logarithmically deep |
| `FallbackSort.TowerSplit` | sctbench/inspect_benchmarks/bzip2smp.comb.c:2179-2185 | pushing the longer part first keeps that shape |
| `FallbackSort.SettledStep` | sctbench/inspect_benchmarks/bzip2smp.comb.c:2116-2186 | any two elements are in order unless some range on the stack holds both, and every round keeps that |
| `FallbackSort.QSort3` | sctbench/inspect_benchmarks/bzip2smp.comb.c:2100-2187 | terminates, permutes only fmap[lo..hi], sorts it by eclass, and its stack depth d satisfies 2^(d-2) <= length, so the assertion `sp < 100` holds |
| `BoyerMoore.Suffixes` | sctbench/inspect_examples/pfscan.comb.c:213-233 | suff[i] is the length of the longest common suffix of x[0..i] and x |
| `BoyerMoore.ShiftFromSuffix` | sctbench/inspect_examples/pfscan.comb.c:244-255 | which shifts are good can be read off the suffix table |
| `BoyerMoore.PreBmGs` | sctbench/inspect_examples/pfscan.comb.c:236-259 | bmGs[j] is the least shift that can give a match after a mismatch at j; it is positive |
| `BoyerMoore.PreBmBc` | sctbench/inspect_examples/pfscan.comb.c:204-210 | bmBc[c] is the distance of the last c before the final byte from the end, or the length |
| `BoyerMoore.BmInit` | sctbench/inspect_examples/pfscan.comb.c:262-286 | prepares a pattern whose occurrences are exactly the places where its bytes stand in the text, or, ignoring case, bytes that differ at most as a capital and its small letter |
| `BoyerMoore.GoodSuffixSafe` | sctbench/inspect_examples/pfscan.comb.c:330-343 | no good-suffix shift skips an occurrence |
| `BoyerMoore.BadCharacterSafe` | sctbench/inspect_examples/pfscan.comb.c:341-343 | no bad-character shift skips an occurrence |
| `BoyerMoore.Search` | sctbench/inspect_examples/pfscan.comb.c:308-348 | reads beyond the text if and only if the text is shorter than the pattern; otherwise the callback sees exactly the occurrences, in increasing order, overlaps included, until it returns nonzero, and without a callback the least occurrence or -1 is returned |
| `Pardo.Partition` | sctbench/inspect_examples/swarm_isort64.comb.c:153-177 | every iteration is run by exactly one thread, for every thread count and increment |
| `Pardo.Shares` | sctbench/inspect_examples/swarm_isort64.comb.c:153-177 | with at least as many iterations as threads every thread but the last gets the same number of consecutive ones and the last the rest; with fewer, each of the first threads gets one |
| `Pardo.Iterate` | sctbench/inspect_examples/swarm_isort64.comb.c:153-177 | the aligned loop of a thread runs exactly its iterations, in order |
| `RadixSort.StepKeepsInv` | sctbench/inspect_examples/swarm_isort64.comb.c:388-460 | every step of every thread keeps the invariant of its phase and disturbs no other thread |
| `RadixSort.RunInv` | sctbench/inspect_examples/swarm_isort64.comb.c:388-460 | hence every interleaving does |
| `RadixSort.CountsComplete` | sctbench/inspect_examples/swarm_isort64.comb.c:423-434 | while some thread sums columns, all counters are complete counts |
| `RadixSort.SumsComplete` | sctbench/inspect_examples/swarm_isort64.comb.c:438-446 | while some thread computes positions, all sums are complete |
| `RadixSort.DestDistinct` | sctbench/inspect_examples/swarm_isort64.comb.c:450-454 | no two keys are written to the same place |
| `RadixSort.RunSorts` | sctbench/inspect_examples/swarm_isort64.comb.c:388-460 | in every interleaving no index is out of range, and when all threads are done the output is the stable sort by the digit |
| `RadixSort.NeverStuck` | sctbench/inspect_examples/swarm_isort64.comb.c:426-456 | until all threads are done some thread can step |
| `RadixProgress.StepLowers` | sctbench/inspect_examples/swarm_isort64.comb.c:388-460 | every step that moves a thread lowers a measure of the work left |
| `RadixProgress.RunIsShort` | sctbench/inspect_examples/swarm_isort64.comb.c:388-460 | no interleaving has more effective steps than the measure of its start |
| `RadixProgress.RunEnds` | sctbench/inspect_examples/swarm_isort64.comb.c:388-460 | every run can be continued until all threads are done |
| `RadixProgress.SortEnds` | sctbench/inspect_examples/swarm_isort64.comb.c:478-493 | for every number of threads and all keys there are finishing runs of all three passes |
| `RadixProgress.MixedSignsRun` | sctbench/inspect_examples/swarm_isort64.comb.c:465-475 | and such runs turn -1 and 0 into 0 and -1 |
| `RadixSort.PassExtends` | sctbench/inspect_examples/swarm_isort64.comb.c:478-493 | a stable pass extends the order to the next digit and keeps the elements |
| `RadixSort.ThreePassesSort` | sctbench/inspect_examples/swarm_isort64.comb.c:478-493 | three passes over 11, 11 and 10 bits keep the keys and order all 32-bit keys by their unsigned values; the result is ascending if and only if negative and other keys do not occur together |
| `RadixSort.MixedSignsMisplaced` | sctbench/inspect_examples/swarm_isort64.comb.c:465-475 | the keys -1 and 0 come out as 0 and -1 |
| `RadixSort.RadixSortS3` | sctbench/inspect_examples/swarm_isort64.comb.c:478-493 | the same however the threads interleave in each pass |
| `Barrier.StepKeepsInv` | sctbench/inspect_examples/swarm_isort64.comb.c:1708-1776 | every step of every thread, spurious wake-ups included, keeps the invariant |
| `Barrier.EndEpisode` | sctbench/inspect_examples/swarm_isort64.comb.c:1763-1770 | the last arrival ends the episode with every thread having arrived exactly once |
| `Barrier.NobodyLeavesEarly` | sctbench/inspect_examples/swarm_isort64.comb.c:1708-1723 | no thread leaves an episode before all have entered it, although the phase is one bit |
| `Barrier.ReduceReturns` | sctbench/inspect_examples/swarm_isort64.comb.c:1747-1776 | if all threads give the same operator to their k-th calls, each of these returns the least, the greatest or the sum of all threads' k-th values, whatever operators the other calls have, although the result is read after unlocking |
| `Barrier.ReduceAgrees` | sctbench/inspect_examples/swarm_isort64.comb.c:1175-1177 | with any mixture of operators, all k-th calls return the same value, which combines one argument of every thread |
| `Barrier.OtherReturns` | sctbench/inspect_examples/swarm_isort64.comb.c:1752-1762 | when all k-th calls give an unknown operator, they return the value that one of them gave |
| `Barrier.CallsReturn` | sctbench/inspect_examples/swarm_isort64.comb.c:1747-1776 | the calls of a thread are those that the schedule makes, with their own arguments, and all have returned but the one it is in |
| `Barrier.FoldAnyOrder` | sctbench/inspect_examples/swarm_isort64.comb.c:1752-1762 | the combination does not depend on the order of arrival |
| `Barrier.NotAllAsleep` | sctbench/inspect_examples/swarm_isort64.comb.c:1711-1722 | the threads are never all asleep |
| `Barrier.NeverStuck` | sctbench/inspect_examples/swarm_isort64.comb.c:1708-1776 | while a thread is awake inside a call, some thread inside a call can step |
| `Randlc.Constants` | sctbench/inspect_examples/swarm_isort64.comb.c:618-634 | the constants computed in loops are exact |
| `Randlc.Step` | sctbench/inspect_examples/swarm_isort64.comb.c:604-661 | x becomes a * x modulo 2^46 exactly, under any rounding that is exact up to 53 bits, and the result is x scaled by 2^-46 |
| `Randlc.Halves` | sctbench/inspect_examples/swarm_isort64.comb.c:638-659 | the products of 23-bit halves recombine to a * x modulo 2^46 and stay below 2^47 |
| `Randlc.AfterIsPower` | sctbench/inspect_examples/swarm_isort64.comb.c:604-661 | k single steps multiply by a^k |
| `Randlc.Log` | sctbench/inspect_examples/swarm_isort64.comb.c:754-757 | the halving loop finds the exponent of the largest power of two not above nn/np |
| `Randlc.RaiseByTwos` | sctbench/inspect_examples/swarm_isort64.comb.c:759-764 | squaring in place raises the multiplier to 2^mq |
| `Randlc.RaiseTo` | sctbench/inspect_examples/swarm_isort64.comb.c:766-781 | the binary exponentiation loop, cut off at 100 rounds, is complete for every 63-bit rank |
| `Randlc.FindMySeed` | sctbench/inspect_examples/swarm_isort64.comb.c:740-783 | returns the state after kn * 2^floor(log2(nn/np)) single steps, for every seed, multiplier, rank and length |
| `Randlc.FullPeriod` | sctbench/inspect_examples/swarm_isort64.comb.c:571-576 | an odd multiplier gives the promised 2^44 numbers before repeating if and only if it is 3 or 5 modulo 8, and none gives more |
| `Randlc.Period` | sctbench/inspect_examples/swarm_isort64.comb.c:571-579 | for every odd seed and odd multiplier, two states are equal if and only if they are a multiple of the period apart, where the period follows from the factors of two in a - 1 or a + 1 |
| `Randlc.PowerNearOne` | sctbench/inspect_examples/swarm_isort64.comb.c:571-574 | if p is 1 modulo 4 and p - 1 has v factors of two, then p^d - 1 has v more than d |
| `Randlc.SeedsAreSpaced` | sctbench/inspect_examples/swarm_isort64.comb.c:732-738 | for every odd seed and odd multiplier, the seed is the promised first number of the subsequence of processor kn if and only if kn * (nn/np - 2^floor(log2(nn/np))) is a multiple of the period; within one period, if and only if kn is 0 or nn/np is a power of two |
| `Randlc.SeedMisplaced` | sctbench/inspect_examples/swarm_isort64.comb.c:732-744 | with the suggested seed and multiplier and three numbers for each processor, processor 1 starts too early |
| `BoundedBuffer.RingPut` | sctbench/inspect_examples/bbuf.c:131-132 | a put appends to the contents of the ring |
| `BoundedBuffer.RingGet` | sctbench/inspect_examples/bbuf.c:152-153 | a get removes the oldest item |
| `BoundedBuffer.FullOrEmpty` | sctbench/inspect_examples/bbuf.c:127-149 | the two loop conditions test exactly for a full and an empty buffer |
| `BoundedBuffer.StepKeepsInv` | sctbench/inspect_examples/bbuf.c:118-160 | every step of every thread, with every choice of woken threads and spurious wake-ups, keeps the invariant |
| `BoundedBuffer.RunIsFifo` | sctbench/inspect_examples/bbuf.c:118-160 | in every run items leave in the order in which they came, and at most max_size - 1 are inside |
| `BufferCalls.RunLinearizes` | sctbench/inspect_examples/bbuf.c:118-160 | every run has an explanation by atomic queue calls: each call of the schedule takes effect once between its start and its return, a put appends its own argument while there is room, a get removes the oldest item |
| `BoundedBuffer.NoWakeupLost` | sctbench/inspect_examples/bbuf.c:127-155 | whenever the mutex is free: sleeping consumers imply no more items than consumers already woken, sleeping producers no more room than producers already woken |
| `BoundedBuffer.NotAllAsleep` | sctbench/inspect_examples/bbuf.c:118-160 | if all callers sleep, sleeping consumers face an empty and sleeping producers a full buffer; with max_size >= 2 the two kinds are never asleep together |
| `BoundedBuffer.OnePlaceSleeps` | sctbench/inspect_examples/bbuf.c:118-160 | with max_size 1 a producer and a consumer both go to sleep |
| `BoundedBuffer.OnePlaceUseless` | sctbench/inspect_examples/bbuf.c:118-160 | with max_size 1 no call ever completes, in any run |
| `BoundedBuffer.NeverStuck` | sctbench/inspect_examples/bbuf.c:118-160 | while a thread is awake inside a call, some awake thread inside a call can step |

## Left out

- Weak memory: all concurrent models are sequentially consistent.
- `State` and `ActivationRecord` tracking of the deque, the variants known to be wrong, and the debug scan of the
  ring: not modelled.
- WorkStealQueue.RunBounds: index width is not modelled; indices are shown to stay within `MaxSize`, so 64-bit
  arithmetic cannot overflow.
- BZ2_blockSort: the main sorter, the bucket scan around the fallback quicksort and its bit-packed headers; a block's
  sorted order enters as any permutation that sorts the rotations.
- Randomised blocks, the small-memory decoder and BZ_FLUSH: not modelled.
- The choice of coding tables and selectors in `sendMTFValues_compute`: replaced by an arbitrary plan.
- MtfCode.DecodeMtf: symbols arrive as a sequence, so suspending inside a symbol is the outcome `NeedInput`; a run
  counter that would overflow 32 bits is the outcome `Undefined`, which is shown to need more output than a block may
  have.
- StreamCodec.Decompress: the whole input is given at once, so suspending and resuming inside a block is only the
  outcome `NeedInput`; randomised blocks and runs beyond 32 bits give the outcome `NotModelled`; which error a
  malformed stream reports is not promised.
- BlockCapacity.SaveInPlace: the writer thread's smaller buffer of 101000 * blockSize100k + 600 bytes is not covered,
  because its bound depends on how the coding tables are chosen.
- BoyerMoore.BmInit: allocation failures are not modelled.
- StreamCalls.Write: file errors and the counters of bytes are not modelled.
- The reader, worker and writer threads of bzip2smp: only the sequence of saves, restores and compressions that they
  perform.
- FallbackSort.QSort3: `eclass` is a read-only sequence, and keys are compared as integers below 2^31, where the
  source's subtraction cannot overflow.
- RadixSort.RadixSortS3: shifting a negative key keeps its sign, as compilers do it; the two-pass variant and memory
  management are not modelled. Histograms are tables of rows instead of flat arrays.
- Barrier.ReduceReturns: sums are unbounded integers; an unknown operator leaves the sum alone, as the source does
  after printing a message; the barrier without values is the same machine with `sum` and `result` ignored. The tree
  barrier and the scan variants are not modelled.
- Socket, HTTP and log clients, the extracted vulnerability programs, the small deliberately faulty programs, argument
  parsing, printing and file access: plumbing or nothing to prove.
