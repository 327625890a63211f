# A boundary-tag allocator, its page manager and its driver

A Dafny model of the malloc package of `cs4400/assn5/malloclab-handout` together with everything
that surrounds it in one run of the driver, and of two small independent programs. Memory is a map
from 8-byte-aligned addresses to words. The allocator's classes read and write these words as the
original does; a ghost layout says what the words mean, and every method is proved against
functions on layouts.

| file | what it models |
|---|---|
| `Machine.dfy` | words, pages and C's fixed-width integers |
| `LinkedWords.dfy` | doubly linked lists whose links are words of memory |
| `Layout.dfy` | chunks tiled by blocks: neighbours, splitting, merging, adding and dropping chunks |
| `HeapImage.dfy` | when words represent a layout, and how each group of writes changes that |
| `MallocSpec.dfy` | what the operations do to layouts, and the invariants they keep |
| `HeapReference.dfy` | the same for malloc and free once more, in numbers and without those operations, proved to be the same |
| `Allocator.dfy` | `mm.c`: a class over raw words with the free list and page list heads |
| `MemLib.dfy`, `PageMap.dfy` | `memlib.c` and `pagemap.c`: page counter, three-level table, linked cells |
| `HeapTheorems.dfy`, `HeapAccounting.dfy`, `HeapGrowth.dfy` | placement, round trip, idle chunks, sizes added up, pages over a run |
| `Traces.dfy`, `Ranges.dfy`, `Ledger.dfy`, `Totals.dfy`, `Means.dfy`, `Utilization.dfy`, `Driver.dfy` | `mdriver.c`: traces, the range list, bookkeeping, the running total, the mean of ratios, utilization, the two evaluations |
| `Words.dfy`, `CheckTrace.dfy`, `EndToEnd.dfy` | `checktrace.pl`, and its composition with the driver |
| `KBest.dfy` | the K-best sampler of `fcyc.c` |
| `Reals.dfy`, `FixedPoint.dfy`, `Trapezoid.dfy` | the implicit trapezoidal solver of `assn1.py`, over exact reals: one step, and whole runs |

How the parts meet:

- `Allocator.Valid()` says that memory represents the layout (tags, footers, both linked lists,
  chunk headers), that exactly the pages of the chunks, and apart from them those left over from
  earlier heaps, are in the page map, and that the layout is
  sound: chunks tiled exactly by blocks of at least 48 bytes and of sizes divisible by 16, the free
  list holding exactly the free blocks, no two free neighbours, no chunk that is one free block.
  `Malloc` and `Free` keep it, and state in addition that payloads in use read the same.
- The system's `mmap` is a nondeterministic step: it fails, or returns any page-aligned, non-null,
  addressable region no word of which is mapped, zero-filled. A failure ends the process, which is
  the result `Aborted`. All other aborts of the original appear as `assert false` in their branch,
  so they are proved unreachable.
- `Driver` keeps a ghost book of which block was asked for with how many bytes and which id holds
  it. It ties the range list, the trace's arrays and the contents of payloads to the heap.
- `q` in the solver is half the step size times the cooling coefficient, of either sign. For
  `abs(q) >= 1` the original's inner loop need not end; the exact condition is proved for a single
  step and for a whole run.

Where the code differs from what its comments suggest, the model follows the code. In
`checktrace.pl` the tests for a reused id (line 96) and for freeing a freed block (line 105) can
never succeed, because the hash never holds `f` and because `!` binds tighter than `eq`; so an id may
be allocated again after it was freed. In `mdriver.c` the overlap test (lines 398-399) notices only
payloads one of whose new ends lies in an old payload; disjointness comes from the allocator.

Two of the driver's figures are not what they are meant to be, and the model says exactly when.
`mem_heapsize` (line 63 of `memlib.c`) multiplies two `int`s, so that it is right for less than 2 GiB of
mapped pages; the product is modelled as wrapping around. `eval_mm_util` (line 773 of `mdriver.c`)
divides only the exponent of the product of ratios by their number, not the fraction, so that it
reports the geometric mean of one ratio only.

## Model

| member | source | states |
|---|---|---|
| Drivers.Driver.EvalMmValid | cs4400/assn5/malloclab-handout/mdriver.c:564-660 | for every trace whose ids are in range and which frees and reallocates only ids that hold a block, and whatever pages an earlier run left mapped, the verdict is 1 exactly if every request asks for at least one byte; the process ends early exactly if the system refuses memory; with verdict 1 no page is left mapped |
| Drivers.Driver.RunOps | cs4400/assn5/malloclab-handout/mdriver.c:582-654 | after a served trace the ids that hold a block are those the trace says, the listed payloads are those of the blocks in use, every payload still holds its fill pattern, and a trace that gives everything back leaves exactly the pages mapped that were mapped before it, even before the reset |
| Drivers.Driver.ServeAlloc | cs4400/assn5/malloclab-handout/mdriver.c:589-615 | an allocation is refused exactly for zero bytes; otherwise the id holds a new block that passed every check, was listed and filled |
| Drivers.Driver.ServeRealloc | cs4400/assn5/malloclab-handout/mdriver.c:617-640 | a reallocation checks and fills the new block while the old one is still in use, then frees it; all other payloads keep their contents |
| Drivers.Driver.ServeFree | cs4400/assn5/malloclab-handout/mdriver.c:642-648 | a free takes exactly the block of the id out of use and off the list |
| Drivers.Driver.EvalMmUtil | cs4400/assn5/malloclab-handout/mdriver.c:673-780 | the peak is the high-water mark of the demand of the trace, the heap figure is the largest heap size computed, and fraction and exponent stand for the product of the ratios; the samples are those of a run of the allocator on the trace; the peak is at most the heap figure if the pages that all requests can need stay below 2 GiB; it ends early exactly if memory is refused or a request asks for zero bytes |
| Utilizations.Recorded | cs4400/assn5/malloclab-handout/mdriver.c:749-766 | each sample updates maximum, heap figure, fraction and exponent so that they stay right |
| Utilizations.RatiosProduct | cs4400/assn5/malloclab-handout/mdriver.c:758-766 | the value accumulated, times the product of all heap sizes plus 1, is the product of all demands plus 1 |
| Utilizations.OneRatio | cs4400/assn5/malloclab-handout/mdriver.c:758-766 | after one request it is (demand + 1) / (heap size + 1) |
| Utilizations.MaxHeapIsMax | cs4400/assn5/malloclab-handout/mdriver.c:754-756 | the heap figure is attained, and no heap size computed exceeds it |
| Utilizations.SampleFits | cs4400/assn5/malloclab-handout/mdriver.c:749-758 | at every step: bytes requested, plus 32 for each id that holds a block, plus 32 for each chunk, are at most the bytes of the pages of the heap, whatever heap size is computed |
| Utilizations.HeapHolds | cs4400/assn5/malloclab-handout/mdriver.c:749-758 | they are at most the heap size computed while no heap of 2 GiB or more occurs |
| Utilizations.HeapSizesRight | cs4400/assn5/malloclab-handout/mdriver.c:754-756 | all heap sizes of a run are right if and only if no heap of 2 GiB or more occurs (or one of all but 2 GiB of the address space) |
| Utilizations.UtilizationAtMostOne | cs4400/assn5/malloclab-handout/mdriver.c:749-779 | while no heap of 2 GiB or more occurs, the peak is at most the largest heap, utilization is in (0, 1] for a non-empty trace, and so are the product of the ratios and the mean reported |
| Utilizations.SmallTraceIsModerate | cs4400/assn5/malloclab-handout/mdriver.c:673-780 | that is so if the pages that all requests of the trace can need, and those mapped before, come to at most INT_MAX bytes |
| Utilizations.HugeIsRunnable | cs4400/assn5/malloclab-handout/mdriver.c:673-780 | a trace of two requests, of 2147479488 and 2147483647 bytes, is well formed |
| Utilizations.HugeIsWrong | cs4400/assn5/malloclab-handout/mdriver.c:749-779 | whenever it is served, the heap size after the second request is computed to be 0, and utilization exceeds 1.9 |
| HeapGrowth.RunGrows | cs4400/assn5/malloclab-handout/mm.c:331-398 | the heap never has more pages than the requests so far can need, each rounded up |
| HeapGrowth.StepGrows | cs4400/assn5/malloclab-handout/mm.c:331-398 | a request maps at most the pages it needs, a free maps none, and the invariants of the layout are kept |
| Means.Times | cs4400/assn5/malloclab-handout/mdriver.c:760-766 | one more factor: the new fraction is in [1/2, 1) and the value is multiplied by the factor |
| Means.ReportedMean | cs4400/assn5/malloclab-handout/mdriver.c:773-777 | what is reported as the mean of n ratios is their geometric mean if and only if n is 1, and never larger |
| Means.ReportedAtMostOne | cs4400/assn5/malloclab-handout/mdriver.c:773-777 | it is at most 1 if the product is |
| Totals.StepTotalled | cs4400/assn5/malloclab-handout/mdriver.c:692-741 | the running total, updated by differences of sizes, is the sum of the sizes of all blocks in use |
| Traces.PeakIsPeak | cs4400/assn5/malloclab-handout/mdriver.c:750-752 | the running maximum is the greatest demand over all prefixes of the trace |
| RangeLists.RangeList.PayloadMapped | cs4400/assn5/malloclab-handout/mdriver.c:381-394 | looking at every 4096th byte and at the last one succeeds if and only if every byte of the payload is on a mapped page |
| RangeLists.RangeList.AddRange | cs4400/assn5/malloclab-handout/mdriver.c:362-418 | a payload is listed if and only if it is aligned, wholly on mapped pages and has no end inside a listed one; otherwise the list is unchanged |
| RangeLists.RangeList.RemoveRange | cs4400/assn5/malloclab-handout/mdriver.c:423-436 | the first extent that starts at the address leaves the list, and nothing else |
| RangeLists.WithoutFirstMembers | cs4400/assn5/malloclab-handout/mdriver.c:423-436 | with distinct starts, exactly that extent is gone |
| RangeLists.RangeList.ClearRanges | cs4400/assn5/malloclab-handout/mdriver.c:441-451 | the list is empty |
| RangeLists.OverlapTestMisses | cs4400/assn5/malloclab-handout/mdriver.c:397-405 | the overlap test is true overlap except for old payloads that the new one encloses, which pass unnoticed |
| Ledger.ListedDisjoint | cs4400/assn5/malloclab-handout/mdriver.c:397-415 | the listed payloads are nevertheless pairwise disjoint in every reachable state, by the tiling of the heap |
| Ledger.ChecksPass | cs4400/assn5/malloclab-handout/mdriver.c:371-405 | a payload handed out by the allocator passes all checks of the driver |
| Ledger.MemsetBytes | cs4400/assn5/malloclab-handout/mdriver.c:610-610 | read byte by byte: after filling, each of the bytes asked for holds the pattern, and every other byte what it held before, also in the word that is filled in part |
| Ledger.FillWordBytes | cs4400/assn5/malloclab-handout/mdriver.c:610-610 | a word whose low k bytes are set to b has b as its first k bytes and keeps the others |
| Ledger.FillsKept | cs4400/assn5/malloclab-handout/mdriver.c:605-610 | a step that keeps the payloads of blocks in use keeps all fill patterns |
| Drivers.PayloadWritten | cs4400/assn5/malloclab-handout/mdriver.c:610-610 | writing inside a payload disturbs neither the structures of the heap nor any other payload |
| Allocators.Allocator.Malloc | cs4400/assn5/malloclab-handout/mm.c:331-388 | null exactly for size 0; otherwise the layout changes as first fit and splitting prescribe, all invariants of the heap hold again, no byte of a payload in use changes, and only a refusal of the system ends the process |
| Allocators.Allocator.Free | cs4400/assn5/malloclab-handout/mm.c:390-398 | null is ignored; a used block is released by marking, merging, listing and unmapping, all invariants hold again, and no byte of another payload in use changes |
| Allocators.Allocator.Init | cs4400/assn5/malloclab-handout/mm.c:324-329 | both lists are empty and the invariants hold; pages that are still mapped stay so and are never touched |
| Allocators.Allocator.FindFit | cs4400/assn5/malloclab-handout/mm.c:249-260 | the walk over the links in memory yields the first adequate block of the free list |
| MallocSpec.FirstFitIsFirst | cs4400/assn5/malloclab-handout/mm.c:249-260 | the block found is adequate and nothing before it is; null if and only if no listed block is adequate |
| Allocators.Allocator.SplitBlock | cs4400/assn5/malloclab-handout/mm.c:263-289 | a block of s bytes is used for t: if s - t is 64 or more it keeps t, and the rest becomes a free block behind it and the first listed one, else it keeps s; no other block changes; the tags in memory describe the result |
| HeapReference.MallocIs | cs4400/assn5/malloclab-handout/mm.c:249-388 | the specification of a request says exactly this, in numbers: the first listed block of at least t bytes is used, or, if there is none, the least number of pages, apart from all others, is mapped and its space behind a 32 byte header is used; either is cut if and only if 64 bytes or more are left, and all other blocks, chunks and list entries stay |
| HeapReference.MallocCuts | cs4400/assn5/malloclab-handout/mm.c:263-289 | after a request a free block lies behind the t bytes used, with the rest as its size and at the front of the free list, if and only if the block had 64 bytes more; otherwise the whole block is used |
| HeapReference.ReleaseIs | cs4400/assn5/malloclab-handout/mm.c:292-398 | the specification of a free says exactly this, in numbers: the block and the free blocks that touch it become one free block at the front of the list, in place of their entries, or, if they are all of their chunk, it leaves the page list and is unmapped; all else stays |
| Allocators.Allocator.Coalesce | cs4400/assn5/malloclab-handout/mm.c:292-321 | two-sided merging, listing and unmapping of an idle chunk; payloads in use are kept and all invariants hold |
| Allocators.Allocator.JoinNeighbours | cs4400/assn5/malloclab-handout/mm.c:295-313 | both merges, with stale tags inside merged blocks and the footer still to be written |
| Allocators.Allocator.GetPrevBlock | cs4400/assn5/malloclab-handout/mm.c:164-192 | the header of the block that ends where this one begins, if and only if there is one in the chunk, whatever stale words lie before it |
| Allocators.Allocator.GetNextBlock | cs4400/assn5/malloclab-handout/mm.c:196-223 | the header of the block that begins where this one ends, if and only if there is one in the chunk |
| Layouts.PrevIsBlock | cs4400/assn5/malloclab-handout/mm.c:164-192 | a predecessor exists exactly for blocks that are not the first of their chunk, and lies in the same chunk |
| Layouts.NextIsBlock | cs4400/assn5/malloclab-handout/mm.c:196-223 | a successor exists exactly for blocks that do not end their chunk, and lies in the same chunk, even where chunks touch |
| Allocators.Allocator.WriteFooter | cs4400/assn5/malloclab-handout/mm.c:141-158 | one word changes, the footer; the bounds check never aborts |
| Allocators.Allocator.FindPageChunkForAddr | cs4400/assn5/malloclab-handout/mm.c:129-139 | the chunk the address lies in, null if and only if there is none |
| Allocators.Allocator.Enlist | cs4400/assn5/malloclab-handout/mm.c:226-232 | a free block enters the list at the front; memory represents the new layout, and payloads in use are kept |
| LinkedWords.PushFrontList | cs4400/assn5/malloclab-handout/mm.c:226-232 | the words written make the list one longer, acyclic and consistent in both directions |
| Allocators.Allocator.Unlist | cs4400/assn5/malloclab-handout/mm.c:235-246 | a block leaves the list; memory represents the new layout, and payloads in use are kept |
| LinkedWords.UnlinkList | cs4400/assn5/malloclab-handout/mm.c:235-246 | the words written leave a consistent list of the other nodes, in order |
| Allocators.Allocator.CheckAndUnmapFullPages | cs4400/assn5/malloclab-handout/mm.c:95-127 | the walk over the page list, reading the next chunk before unmapping, drops exactly the idle chunk |
| Allocators.Allocator.UnmapChunk | cs4400/assn5/malloclab-handout/mm.c:106-123 | an idle chunk leaves free list, page list and page map together |
| Allocators.Allocator.MapAndCarve | cs4400/assn5/malloclab-handout/mm.c:356-387 | with no adequate block, a new chunk is mapped, laid out as one free block and carved |
| Allocators.Allocator.LayChunk | cs4400/assn5/malloclab-handout/mm.c:367-383 | the words of a fresh region become a listed chunk of one tagged free block |
| MallocSpec.MallocKeeps | cs4400/assn5/malloclab-handout/mm.c:331-388 | tiling, free list, coalescing and no idle chunk are kept by every request |
| MallocSpec.ReleaseKeeps | cs4400/assn5/malloclab-handout/mm.c:390-398 | and by every free |
| MallocSpec.CarveKeeps | cs4400/assn5/malloclab-handout/mm.c:263-289 | splitting a block keeps the tiling and leaves no two free neighbours |
| MallocSpec.JoinPrevResult | cs4400/assn5/malloclab-handout/mm.c:305-309 | merging with a free predecessor keeps the block behind and leaves no free predecessor |
| MallocSpec.JoinNextResult | cs4400/assn5/malloclab-handout/mm.c:310-313 | merging with a free successor leaves no two free neighbours in the heap |
| MallocSpec.SweepVisit | cs4400/assn5/malloclab-handout/mm.c:98-126 | at each chunk of the walk: it is idle only if it is the one just emptied, and its block is then on the free list |
| HeapTheorems.MallocGives | cs4400/assn5/malloclab-handout/mm.c:331-388 | an answer is one new 16-aligned used block of between 32+ALIGN(n) and 32+ALIGN(n)+48 bytes, so of capacity n to n+63; all other used blocks are unchanged |
| HeapTheorems.ExtendIsLeast | cs4400/assn5/malloclab-handout/mm.c:356-361 | a chunk is mapped only if no free block of the heap is adequate, and no fewer pages would do |
| HeapTheorems.RoundTrip | cs4400/assn5/malloclab-handout/mm.c:292-398 | freeing what was just allocated restores chunks, blocks, page list and mapped pages; the free list differs only by the reused block having moved to the front |
| HeapTheorems.ReleaseGives | cs4400/assn5/malloclab-handout/mm.c:390-398 | a free takes exactly one block out of use and changes no other used block |
| HeapTheorems.ReleaseChunks | cs4400/assn5/malloclab-handout/mm.c:95-127 | a free unmaps the chunk of the block if and only if it held no other used block, and never another chunk |
| HeapTheorems.NothingUsed | cs4400/assn5/malloclab-handout/mm.c:95-127 | with no block in use, page list, free list and page map are empty |
| HeapTheorems.PayloadInside | cs4400/assn5/malloclab-handout/mm.c:331-388 | payloads are 16-aligned and inside their chunk |
| HeapTheorems.PayloadsDisjoint | cs4400/assn5/malloclab-handout/mm.c:331-388 | payloads of different blocks are disjoint |
| HeapAccounting.ChunkIsTiled | cs4400/assn5/malloclab-handout/mm.c:263-321 | the blocks of a chunk, walked by their sizes, lie end to end from the chunk header to the chunk end, are all of its blocks, and their sizes add up |
| HeapAccounting.HeapSizeIsListed | cs4400/assn5/malloclab-handout/memlib.c:61-64 | 4096 bytes for each mapped page are the page sizes added up over the page list |
| HeapAccounting.HeapLoad | cs4400/assn5/malloclab-handout/mdriver.c:749-758 | requested bytes, 32 for each used block and 32 for each chunk fit into the heap |
| HeapImage.MergeImage | cs4400/assn5/malloclab-handout/mm.c:305-315 | after a merge wrote only the size word, memory represents the merged layout up to one footer |
| HeapImage.SplitImage | cs4400/assn5/malloclab-handout/mm.c:270-282 | the six words of a split represent the split layout |
| HeapImage.DropImage | cs4400/assn5/malloclab-handout/mm.c:110-122 | unlinking and unmapping a chunk leaves memory representing the rest |
| HeapImage.AddChunkImage | cs4400/assn5/malloclab-handout/mm.c:367-383 | the words of a new chunk extend what memory represents by one free block |
| MemLibs.MemLib.Map | cs4400/assn5/malloclab-handout/memlib.c:67-98 | a fresh region, apart from all mapped pages, is mapped, exactly its pages enter the page map and the count, which wraps as an int; no page is found mapped already |
| MemLibs.MemLib.Unmap | cs4400/assn5/malloclab-handout/memlib.c:100-133 | exactly the pages of the region leave; none of the aborts is reached |
| MemLibs.MemLib.Reset | cs4400/assn5/malloclab-handout/memlib.c:46-51 | no page and no word is left mapped, the count is 0 |
| MemLibs.MemLib.HeapSize | cs4400/assn5/malloclab-handout/memlib.c:61-64 | the product of two ints, wrapped and converted to size_t; it is 4096 times the number of mapped pages if and only if these are fewer than 524288 (or all but at most 524288 of the address space) |
| MemLibs.HeapFigureExact | cs4400/assn5/malloclab-handout/memlib.c:61-64 | the same for every page count |
| MemLibs.HeapFigureIs | cs4400/assn5/malloclab-handout/memlib.c:61-64 | in general it is the low 32 bits of that number, extended with their sign to 64 |
| MemLibs.MemLib.Record | cs4400/assn5/malloclab-handout/memlib.c:92-95 | the loop over the pages of a region enters exactly these |
| MemLibs.MemLib.Unrecord | cs4400/assn5/malloclab-handout/memlib.c:116-126 | the loop over the pages of a region removes exactly these |
| PageMaps.PageMap.IsMapped | cs4400/assn5/malloclab-handout/pagemap.c:79-89 | membership of the page of the address in the set of mapped pages |
| PageMaps.PageMap.Modify | cs4400/assn5/malloclab-handout/pagemap.c:25-77 | the page enters or leaves the set; table and linked list stay in agreement; none of the aborts is reached |
| PageMaps.PageMap.ForEach | cs4400/assn5/malloclab-handout/pagemap.c:91-101 | every mapped page is visited exactly once, and the set is empty afterwards |
| PageMaps.LevelsInjective | cs4400/assn5/malloclab-handout/pagemap.c:18-23 | the three index fields of an address determine its page |
| PageMaps.PageOfIs | cs4400/assn5/malloclab-handout/pagemap.c:16-23 | the page of an address is the one multiple of 4096 at or less than 4096 before it |
| PageMaps.LevelsOfAddress | cs4400/assn5/malloclab-handout/pagemap.c:16-23 | they are its bits 48 to 63, 32 to 47 and 12 to 31 |
| PageMaps.RadixTable.Find | cs4400/assn5/malloclab-handout/pagemap.c:31-49 | missing levels are allocated, existing cells stay what they are, and the cell found is that of the page |
| PageMaps.RadixTable.Lookup | cs4400/assn5/malloclab-handout/pagemap.c:83-88 | null if and only if some level of the path is missing, else the cell of the page |
| PageMaps.CellList.Put | cs4400/assn5/malloclab-handout/pagemap.c:58-63 | a cell gets its address and enters the doubly linked list at the front |
| PageMaps.CellList.Take | cs4400/assn5/malloclab-handout/pagemap.c:69-75 | a cell loses its address and leaves the doubly linked list, the others keep their order |
| CheckTraces.CheckLine | cs4400/assn5/malloclab-handout/traces/checktrace.pl:84-115 | the tests on one line succeed if and only if the trace so far stays consistent; two of them can never fire |
| CheckTraces.KeptSnoc | cs4400/assn5/malloclab-handout/traces/checktrace.pl:74-82 | exactly the lines without a word and those whose first word is 0 are passed over |
| CheckTraces.LastIs | cs4400/assn5/malloclab-handout/traces/checktrace.pl:84-115 | an id is outstanding exactly if the last line for it that is not a realloc is not a free; what is stored for it is the command of that line |
| CheckTraces.OutputRequests | cs4400/assn5/malloclab-handout/traces/checktrace.pl:142-153 | the a, r and f lines of the output are those of the input, all of them and in order, and then one line for each outstanding key: f, a blank and the key |
| CheckTraces.Read | cs4400/assn5/malloclab-handout/traces/checktrace.pl:70-116 | the run survives reading if and only if the trace is consistent, and then the hash holds exactly the outstanding ids |
| CheckTraces.Balance | cs4400/assn5/malloclab-handout/traces/checktrace.pl:70-153 | the run succeeds if and only if the trace is consistent and only allocations are outstanding; the output is the trace, without skipped lines, followed by a free for each outstanding id in increasing order, counted in the header |
| CheckTraces.Summarize | cs4400/assn5/malloclab-handout/traces/checktrace.pl:121-129 | the summary says balanced if and only if nothing is outstanding |
| CheckTraces.BalancedIsBalanced | cs4400/assn5/malloclab-handout/traces/checktrace.pl:134-153 | the output keeps the requests as a prefix, is accepted, and leaves nothing outstanding; the number of requests claimed stays right |
| CheckTraces.SecondPass | cs4400/assn5/malloclab-handout/traces/checktrace.pl:70-153 | the output is accepted again and unchanged by a second pass |
| CheckTraces.LeftAlone | cs4400/assn5/malloclab-handout/traces/checktrace.pl:70-153 | a trace is put out unchanged if and only if nothing is outstanding and no line is skipped |
| CheckTraces.FreesTakeAway | cs4400/assn5/malloclab-handout/traces/checktrace.pl:147-153 | after the first k frees exactly the first k keys are gone |
| Words.SortKeys | cs4400/assn5/malloclab-handout/traces/checktrace.pl:148-148 | the keys in strictly increasing order, each once |
| Words.BeforeIs | cs4400/assn5/malloclab-handout/traces/checktrace.pl:148-148 | a string comes before another if and only if it is a proper prefix of it or has the lower character where they first differ |
| Words.WordsOfWoven | cs4400/assn5/malloclab-handout/traces/checktrace.pl:74-74 | the words of a line made of words and white space between them are these words, with any white space before and behind |
| Words.Unwoven | cs4400/assn5/malloclab-handout/traces/checktrace.pl:74-74 | every line is made so of its words |
| Words.ReadBack | cs4400/assn5/malloclab-handout/mdriver.c:497-530 | the decimal numeral printed for a number is read back as that number |
| Words.PrintBack | cs4400/assn5/malloclab-handout/mdriver.c:497-530 | a canonical numeral is what is printed for the number it is read as |
| EndToEnd.PrintedIsRead | cs4400/assn5/malloclab-handout/mdriver.c:497-530 | the line printed for a request to allocate, reallocate or free is read as that request, with its id and size |
| EndToEnd.AcceptedIsRunnable | cs4400/assn5/malloclab-handout/traces/checktrace.pl:84-115 | on well-formed lines the balancer accepts exactly the traces the driver can carry out without allocating an id that holds a block |
| EndToEnd.BalancedGivesBack | cs4400/assn5/malloclab-handout/traces/checktrace.pl:147-153 | what the balancer puts out can be carried out by the driver and gives back every block |
| EndToEnd.Replay | cs4400/assn5/malloclab-handout/mdriver.c:564-660 | balancing a trace and replaying it leaves exactly the pages mapped that were mapped before, already before the reset |
| KBest.Sampler.AddSample | cs4400/assn5/malloclab-handout/fcyc.c:67-88 | the array holds, in order, the kbest smallest of all samples so far, as sorting everything would give |
| KBest.BestStep | cs4400/assn5/malloclab-handout/fcyc.c:67-88 | the kbest smallest after one more sample follow from the kbest smallest before |
| KBest.BestAreSmallest | cs4400/assn5/malloclab-handout/fcyc.c:67-88 | what is kept is sorted, is part of the samples, and nothing left out is smaller |
| KBest.Sampler.Sink | cs4400/assn5/malloclab-handout/fcyc.c:81-87 | the swap loop puts the new value in its place |
| KBest.Sampler.HasConverged | cs4400/assn5/malloclab-handout/fcyc.c:93-98 | true if and only if there are kbest samples and, of the kbest smallest, none exceeds another by more than the factor 1 + epsilon (which must not be negative for this) |
| KBest.TakenIs | cs4400/assn5/malloclab-handout/fcyc.c:150-161 | the samples after n measurements are these n, in order |
| KBest.ConvergedIsClose | cs4400/assn5/malloclab-handout/fcyc.c:93-98 | comparing the smallest with the kbest-th decides about all pairs |
| KBest.Sampler.Fcyc | cs4400/assn5/malloclab-handout/fcyc.c:129-168 | the result is the minimum of all measurements taken; sampling stops as soon as of the kbest smallest none exceeds another by more than the factor 1 + epsilon, not before unless there are maxsamples, and after at most max(1, maxsamples) measurements |
| Trapezoid.EulerTrapezoidal | cs3200/assn1/assn1.py:54-74 | times are the multiples of h up to the first that is not before the end; every temperature is within the error bound of the exact trapezoidal sequence, where that exists |
| Trapezoid.StepsIs | cs3200/assn1/assn1.py:59-59 | the number of steps is the number of multiples of h before the end |
| Trapezoid.NoEnd | cs3200/assn1/assn1.py:59-74 | a step size that is not positive never reaches a positive end |
| Trapezoid.NextTemperature | cs3200/assn1/assn1.py:60-69 | the inner loop ends, with the guess behind the first gap that is within the tolerance |
| FixedPoint.SettlesIff | cs3200/assn1/assn1.py:65-69 | the inner loop ends if and only if abs(q) < 1 or its first gap is within the tolerance |
| FixedPoint.NeverAccepted | cs3200/assn1/assn1.py:65-69 | one degree above the surroundings, with h r = 2, all gaps are 2 and the loop never ends |
| Trapezoid.RunIff | cs3200/assn1/assn1.py:59-74 | all steps of a run end if and only if abs(q) < 1 or the first gap of the last step is within the tolerance |
| FixedPoint.StepIff | cs3200/assn1/assn1.py:60-71 | there is an accepted temperature exactly if the step settles, and then only one |
| FixedPoint.GapSize | cs3200/assn1/assn1.py:66-67 | successive guesses differ by 2 q q abs(u) times the k-th power of abs(q) |
| FixedPoint.StepError | cs3200/assn1/assn1.py:60-71 | an accepted step is within 0.05 abs(q) / abs(1 + q) of the solution of the implicit equation |
| Trapezoid.RunError | cs3200/assn1/assn1.py:59-74 | after n steps the distance to the exact trapezoidal sequence is at most 0.025 max(1, abs(q)) abs(1 - m^n), where m = abs(1 - q) / abs(1 + q) |
| Trapezoid.RunBoundIs | cs3200/assn1/assn1.py:59-74 | that bound is the one used throughout |
| Trapezoid.BoundedRun | cs3200/assn1/assn1.py:59-74 | for a cooling coefficient that is not negative that is at most 0.025 for q <= 1, and 0.025 q beyond |
| FixedPoint.ImplicitSolves | cs3200/assn1/assn1.py:66-66 | the implicit equation has exactly this solution; for q = -1 it has one only if u is 0 |

## Left out

- Drivers.Driver.EvalMmValid: the text of error messages.
- Drivers.Driver.EvalMmUtil: `frexp` and `pow` are exact, over reals; the final quotient and the mean are in lemmas, as an `n`-th root has no finite expression; an empty trace, for which the original divides 0 by 0, gives figures of 0.
- Allocators.Allocator.Malloc: requests so large that the computed sizes wrap around 64 bits are excluded; the driver passes an `int`.
- Allocators.Allocator.Free: only null and payloads of used blocks may be given, as the C library demands.
- Allocators.Allocator.WriteHeaders: the word at offset 8 of a header stands for the 4-byte `allocated` field and its padding together, and the padding word of a footer is not written; nothing reads either padding.
- MemLibs.MemLib.HeapSize: an `int` that overflows wraps around in two's complement, which the C language leaves undefined.
- MemLibs.MemLib.Map: the extra page that `activity_counter` maps now and then is outside the model, as no address of it is ever used; the page size is the constant 4096.
- MemLibs.MemLib.Unmap: `munmap` always succeeds.
- PageMaps.PageMap.ForEach: the callback becomes the returned list of visited pages; `mem_reset` unmaps them after the walk instead of during it.
- PageMaps.RadixTable.Find: `calloc` always succeeds; a table of cells is a sequence of references to cells, since it is never reassigned.
- RangeLists.RangeList.AddRange: the range list is a sequence from its head, without the nodes' own memory.
- Drivers.Driver.Fill: `memset` is modelled on whole words with the last one partly overwritten, payloads being 16-aligned.
- CheckTraces.Balance: lines are already separated and the count in the header is a number; output written before a late `die` is not modelled.
- EndToEnd.AcceptedIsRunnable: speaks of lines that are plain requests with canonical decimal ids in range, as trace files have them; the parsing of whole files by `read_trace` is input and output.
- KBest.Sampler.Fcyc: measurements are a function of their number, over reals without NaN; the branch that compensates for clock ticks differs only in the counter it reads; clearing the cache and freeing the array are left out.
- Trapezoid.EulerTrapezoidal: exact reals instead of floating point; runs that do not end, for which the exact conditions are proved, have no result.
- `clock.c`, `ftimer.c`, `fsecs.c`, `eval_mm_speed` and the libc evaluators: timing of hardware and operating system.
- `main`, `printresults`, `usage` and the dump functions: input and output.
- The forward Euler solver, the analytical solution and the plots of `assn1.py`: they would add only easy members.
- The simulator, the matrix products of `cs3200/assn6` and `FormulaSyntaxTests.cs`: unfinished, easy, or with their subject missing.
