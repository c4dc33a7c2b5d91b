# aiOS in Dafny

A model of the parts of aiOS (a freestanding kernel that runs a language model) in which a mistake would be
silent, with proofs of what they are for. Each source file's state is kept the way the C code keeps it: arrays
written in place, linked headers, page tables in memory, cursor-advancing readers, polling loops. The method
that does the work is proved against a definition that says what it is for, and theorems are proved about that
definition. Numbers of the inference engine are exact reals; in the forward pass `exp`, `sqrt`, `sin` and `cos` are
parameters, as are the values of half-precision numbers and the random number.

`dafny verify dfyconfig.toml` checks everything.

## Parts and main results

**Memory (`malloc.c`).** `PagePool`, `PoolOrder`, `HeapModel`, `HeapTiling`, `HeapHeaders`, `HeapPointers`,
`HeapLinks`, `Heap`, `HeapOverwrite`, `HeapShared`, `HeapLaws`. Headers live in the memory they describe, and `free` joins list neighbours
without comparing addresses, so a joined block can reach over memory in use and a later split header can land on a
live header. `HeapHeaders.HistorySeparateIff` says exactly for which histories this never happens, by a test before
each `malloc`; these histories conserve every byte and leave no two consecutive free blocks, and over them the
linked list in memory is the list of the model (`Heap`, as long as memory reaches), live payloads keep their bytes
and `realloc` moves every byte.
`HeapLinks.ServeKeepsListIff` is the condition for one request and the list in memory. `HeapOverwrite` is a history
of three mallocs, two frees and a malloc that fails it and loses almost a page. `HeapTiling.HistoryTilesIff` says
exactly for which histories blocks tile the pages taken from the pool: those in which every free joins blocks that lie end to end.
`PoolOrder` says exactly when the search for adjacent pages sees every run the pool holds, over every history of
allocations and frees. `HeapShared` proves the results about heap histories with page tables and shell taking pages
from the pool and giving them back in between. `HeapLaws` says which block serves a request, when the pool is asked,
and when a freed block is the next one given out.

**Inference (`gguf.c`).** `Recurrence` defines hidden vectors, keys and values of every layer and position from
the tokens alone, without a cache; `Transformer` fills in the layer functions. `Forward.Engine` is
`transformer_forward` and the generation loop over its global buffers. Its logits, and the whole generated token
list, are those of the cache-free definition, whatever the buffers held before. `CacheLayout` shows that cache
indices stay apart, inside and below 32 bits whenever the cache is within its budget, and when the cap keeps it
there. `TransformerLaws` and `RotationLaws` say what the layer functions are for, without naming them: normalisation,
softmax, attention and gating are their formulas under exact arithmetic, each key/value head serves its group, and the
inner product of a rotated query and key depends on their distance only. A generation is the one token list that
follows the choices and stops where it must (`Forward.DecodeIff`). `Quicksort` sorts with unguarded scans. `Sampling` shows that the kept tokens are a smallest set reaching
top-p and that, on a probability distribution, the draw lands in its interval. `ExpSeries` and `SoftmaxSign` show
when softmax is one: the program's twenty-term `exp` turns negative between -6.5 and -6. The sampler ranks a likeliest
token first, and keeps one, exactly when the softmax weights have a positive sum; logits 0 and -7 have a negative one.
`Quant` shows that the 8-lane products compute the
dequantised row's inner product.

**Text and files.** `VocabIndex` compares the hash index with the linear scan. `Tokenizer` covers a text with
longest matches and says exactly when the tokens spell it again; `Detokenizer` follows a prompt to the tokenizer and
back to the screen. `GgufFormat` is a writer of the GGUF format (its "File Structure" section) and `Gguf` the
reader that inverts it. `Tar` does the same for ustar archives ("ustar Interchange Format", pax utility,
POSIX.1-2017).

**Sharing work with the emulator core (`igpu.c`).** `Gate` takes the hand-off between `mat_vec_mul` and the
emulator apart into single field accesses. `GateProofs` shows over every interleaving that the emulator sees only
completely filled gates, that the two sides never work at once, that each call returns with its own complete
product, and that it does return when both cores get turns. `Emulator` reads weights from bytes by the gate's
format: what a call returns is the dequantised matrix times its input vector, as the forward pass computes it.
`WeightBytes` is a writer of weights, and shows that what it packed is the matrix that is multiplied.
`PageTables`, `PageAccess` and `Paging` are the page-table tree: boot identity map, mapping pages and ranges, cloning, and locking by present bits.

## Hypotheses

- The pool starts with distinct aligned pages. Its other users (igpu.c:129, 141, 216, 258; shell.c:95-100, 177-178)
  give back only pages that they hold.
- Callers free only what they own and write only inside their payloads. A header that another header overlaps counts
  as destroyed, even where the bytes happen to agree.
- Gates stay allocated; input buffers of a product do not overlap its output; weights are not written to.
- The softmax weights of a sampling step do not sum to zero. Nothing else is assumed of the logits; that the sampler
  works on a probability distribution is a conclusion only where the scaled logits lie close enough together.
- `head_count_kv` divides `head_count`, head dimensions agree and are even, the query buffer can hold an embedding,
  prompts fit the context.
- Page-table pages are not also in the pool; ranges lie in 48-bit address space; locked ranges lie below 512GB.
- Archives and model files are well formed.

- `TransformerLaws` and `RotationLaws` name what they need of division, root, exp, cos and sin in each statement; the
  program's series have these properties approximately.

## Where code and documentation disagree

- README.md:17 says inference locks weight and activation pages against the CPU. `igpu_submit_math` and
  `igpu_wait_math` (igpu.c:382-420) do not call `set_memory_cpu_access`; nothing here claims that they do.
- README.md:24 speaks of boundary-tag coalescence. `free` (malloc.c:336-344) walks a singly linked list and compares
  no addresses.
- A GGUF pair `general.alignment` is read as a UINT32 whatever its type says (gguf.c:641-643); the model's writer
  gives it that type.

## Model

| member | source | states |
|---|---|---|
| `PagePool.FirstRun` | malloc.c:223-240 | the smallest array index at which n entries are physically adjacent pages, or the length when there is none |
| `PagePool.TakeRemovesRun` | malloc.c:211-240 | a successful allocation takes exactly the n adjacent pages it returns, whatever the order of the pool, and keeps an ascending pool ascending |
| `PagePool.TakeFailureKeeps` | malloc.c:211-244 | a failed allocation leaves the pool as it was |
| `PagePool.OverlapBeforeStart` | malloc.c:70-71 | a page that overlaps a module without starting in it is the page in which the module starts |
| `PagePool.ClearOfModuleIff` | malloc.c:67-78 | a complete pool stays clear of a module exactly when the page the module starts in is not eligible or starts with it |
| `PagePool.EarlierPagesBelow` | malloc.c:57-80 | pages of earlier regions of an ascending map lie below those of later ones |
| `PagePool.Pool.InitFromMap` | malloc.c:39-209 | every page of the pool is at or above the end of the kernel and 1MB, aligned, starts in no module and lies inside one usable region; every such page is in it unless it is full; ascending when the map is |
| `PagePool.Pool.AddRegion` | malloc.c:59-79 | one usable region adds exactly its eligible pages, in order, until the pool is full |
| `PagePool.Pool.AllocPage` | malloc.c:211-217 | the last page is popped, or 0 is returned and nothing changes |
| `PagePool.Pool.AllocContiguous` | malloc.c:219-244 | result and remaining pool are those of the first run of n adjacent pages |
| `PagePool.Pool.StartsRun` | malloc.c:224-230 | n entries from an index on are adjacent pages |
| `PagePool.Pool.Shift` | malloc.c:233-237 | the entries behind a run move down over it |
| `PagePool.Pool.FreePage` | malloc.c:246-255 | an aligned page goes to the end of the array; an unaligned one, or any when the array is full, is ignored |
| `PoolOrder.HeldRunIsConsecutive` | malloc.c:223-230 | where adjacent pages stand in order in the array, a run held in any form stands at consecutive indices |
| `PoolOrder.RunsSeenIff` | malloc.c:219-244 | for a pool without duplicates: the search sees every run the pool holds if and only if any two adjacent pages in it stand at consecutive indices, lower one first |
| `PoolOrder.SearchIsComplete` | malloc.c:211-244 | in such a pool an allocation fails exactly when the pool holds no n adjacent pages in any form |
| `PoolOrder.AscendingIsInOrder` | malloc.c:57-80 | an ascending pool, as the boot map makes it, is such a pool |
| `PoolOrder.TakeKeepsOrder` | malloc.c:211-244 | allocations keep it one |
| `PoolOrder.PushKeepsOrderIff` | malloc.c:246-255 | freeing a page keeps it one exactly when the page above is not in the pool and the page below is absent or last |
| `PoolOrder.HistoryInOrderIff` | malloc.c:211-255 | over every history of allocations and frees no run is ever hidden from the search if and only if each freed page passes that test |
| `PoolOrder.HistoryIsComplete` | malloc.c:211-255 | after such a history an allocation fails exactly when the pool holds no such run |
| `PoolOrder.FreedPagesHideARun` | malloc.c:211-255 | two pages taken and given back in the order they were taken: the pool holds both, adjacent, and a request for two fails |
| `HeapModel.Round16` | malloc.c:289-290 | the least multiple of 16 at or above the request |
| `HeapModel.PagesFor` | malloc.c:272-274 | the least number of pages that hold the request and a header |
| `HeapModel.FirstFit` | malloc.c:301-317 | the first free block that is large enough |
| `HeapModel.MallocConserves` | malloc.c:286-324 | of the list as a value: malloc keeps the sum of block bytes, headers included, and free page bytes |
| `HeapModel.FreeConserves` | malloc.c:326-345 | of the list as a value: free keeps that sum |
| `HeapModel.StepConserves` | malloc.c:286-381 | of the list as a value: so does realloc, failing or not |
| `HeapModel.RunConserves` | malloc.c:286-381 | of the list as a value: the sum never changes over a legal history; for which histories the list is what memory holds see HeapHeaders.HistorySeparateIff |
| `HeapModel.CoalesceIsComplete` | malloc.c:336-344 | one left-to-right pass leaves no two consecutive free blocks, from any list |
| `HeapModel.CarveKeepsCoalesced` | malloc.c:301-316 | serving a request from a free block, split or not, never makes two consecutive free blocks |
| `HeapModel.RunKeepsCoalesced` | malloc.c:286-381 | of the list as a value: no two consecutive blocks are free after any operation of a legal history |
| `HeapTiling.BlocksDisjoint` | malloc.c:271-345 | in a list that tiles its pages no two blocks share an address |
| `HeapTiling.IndexIsUnique` | malloc.c:329 | a header address names one block of such a list |
| `HeapTiling.MallocKeepsInv` | malloc.c:286-324 | malloc keeps the tiling of the pages taken from the pool |
| `HeapTiling.CoalesceShape` | malloc.c:336-344 | freeing one block of a coalesced list replaces it and its free list neighbours by their join |
| `HeapTiling.FillsIff` | malloc.c:338-340 | disjoint blocks hold the same addresses as their join exactly when they lie end to end |
| `HeapTiling.ReleaseTilesIff` | malloc.c:326-345 | a free keeps the tiling exactly when the blocks it joins lie end to end |
| `HeapTiling.FreeInvIff` | malloc.c:326-345 | the same for the whole heap invariant, by a test on the list before the call |
| `HeapTiling.StepInvIff` | malloc.c:286-381 | every operation keeps the invariant exactly when what it frees joins end to end |
| `HeapTiling.HistoryTilesIff` | malloc.c:286-381 | over every legal history the blocks tile the taken pages throughout if and only if every free joins blocks that lie end to end |
| `HeapTiling.EmptyHeapInv` | malloc.c:267-269 | an empty heap over distinct aligned pages satisfies the invariant |
| `HeapHeaders.UsedDisjoint` | malloc.c:257-265 | when no header shares a byte with another header or an allocated payload, allocated payloads are disjoint too |
| `HeapHeaders.MallocSeparateIff` | malloc.c:286-324 | malloc keeps headers and given memory apart exactly when what it carves, or the extent it adds, is apart from every other block; a test on list and pool before the call |
| `HeapHeaders.FreeKeepsSeparate` | malloc.c:326-345 | every free keeps them apart, wherever the blocks it joins lie |
| `HeapHeaders.StepSeparateIff` | malloc.c:286-381 | every operation keeps them apart throughout, realloc also between its malloc and its free, exactly when its malloc passes the test |
| `HeapHeaders.HistorySeparateIff` | malloc.c:286-381 | over every legal history no header is written over another header or into given memory, and no memory is given out that holds a header, if and only if each malloc passes its test |
| `HeapHeaders.HistoryConserves` | malloc.c:286-381 | such a history keeps the sum of block and free page bytes, leaves no two consecutive free blocks and headers apart |
| `HeapHeaders.GuardedRunIsClear` | malloc.c:286-381 | every history in which each free joins blocks that lie end to end is one |
| `HeapPointers.OwnedIff` | malloc.c:295-323 | the pointers a caller may free are exactly the payloads of allocated blocks |
| `HeapPointers.MallocGains` | malloc.c:286-324 | a malloc that passes the separation test gives a block not in use before, of at least the requested size, and every other allocated block stays; a failing one changes nothing |
| `HeapPointers.MallocServes` | malloc.c:286-324 | over a tiled list the block is also 8-aligned, fewer than 40 bytes over the rounded request when reused, 8 modulo 16 when fresh |
| `HeapPointers.MallocFailsIff` | malloc.c:286-324 | while adjacent pages stand in order in the pool malloc fails exactly when no free block is large enough and the pool holds no run of enough pages |
| `HeapPointers.HistoryMallocFailsIff` | malloc.c:286-381 | from such a pool this holds after every legal heap history |
| `HeapPointers.FreeKeepsOthers` | malloc.c:326-345 | free ends the life of one block and of no other |
| `HeapPointers.ReallocServes` | malloc.c:359-381 | a moving realloc trades the old block for a larger one, and may free the old one; one that fails or need not move changes nothing |
| `HeapPointers.HistoryKeepsPayloadsApart` | malloc.c:286-381 | blocks left allocated by a history in which joined neighbours are adjacent never overlap and are 8-aligned |
| `HeapPointers.ThreeExtentsReached` | malloc.c:211-217 | three one-page requests over an ascending pool lie downwards in memory, in list order |
| `HeapPointers.JoiningApartBlocksOverlaps` | malloc.c:337-341 | freeing the two lower ones joins blocks that are not adjacent, and a later malloc returns memory of the third: the adjacency hypothesis is needed |
| `HeapLinks.SplitEffect` | malloc.c:304-311 | after a split the linked list runs through the new header and stands for the carved blocks |
| `HeapLinks.ServeKeepsListIff` | malloc.c:302-313 | a header store destroys every other header whose 24 bytes it overlaps; then the list in memory becomes the carved one exactly when the header a split writes overlaps no other header of the list |
| `HeapLinks.AppendKeepsListIff` | malloc.c:271-284 | likewise a new extent extends the list exactly when its header overlaps no header of the list |
| `HeapLinks.AppendHeader` | malloc.c:320-323 | a header hung behind the last one extends the list by its block |
| `HeapLinks.JoinEffect` | malloc.c:338-340 | unlinking a header and adding its bytes to the one before stands for the joined block |
| `HeapLinks.JoinStep` | malloc.c:337-344 | one step of the coalescing loop leaves the rest of the pass as it was |
| `Heap.Heap.constructor` | malloc.c:267-269 | the list is empty |
| `Heap.Heap.RequestSpace` | malloc.c:271-284 | whole adjacent pages leave the pool and carry one header that spans them |
| `Heap.Heap.FindFree` | malloc.c:298-317 | the walk stops at the first free block that is large enough, else behind the last |
| `Heap.Heap.Split` | malloc.c:304-311 | writes the two headers of a split |
| `Heap.Heap.UseBlock` | malloc.c:302-313 | the block at that place becomes what carving makes of it |
| `Heap.Heap.Malloc` | malloc.c:286-324 | when the separation test holds the linked list becomes what the model says; only header bytes change, so every live payload keeps its bytes |
| `Heap.Heap.JoinNext` | malloc.c:338-340 | joins a free block with the free one behind it |
| `Heap.Heap.CoalesceList` | malloc.c:336-344 | the loop leaves the coalesced list |
| `Heap.Heap.Free` | malloc.c:326-345 | for every owned pointer, wherever the joined blocks lie: the linked list becomes what the model says, and every other live payload keeps its bytes |
| `Heap.Heap.Copy` | malloc.c:375-377 | the byte loop copies exactly the n bytes |
| `Heap.Heap.Relocate` | malloc.c:371-380 | the new block holds every byte of the old payload; other payloads keep theirs |
| `Heap.Heap.Realloc` | malloc.c:359-381 | the linked list becomes what the model says, the returned block holds every byte of the old payload, other payloads keep theirs |
| `Heap.TiledIsPossible` | malloc.c:286-324 | where blocks tile pages of memory every malloc passes the separation test and writes inside memory |
| `HeapOverwrite.WriteIsStored` | malloc.c:257-265 | written as words of memory, a header can be read back, and so can every header it does not overlap |
| `HeapOverwrite.JoinedReached` | malloc.c:326-345 | freeing the two lower of three extents joins blocks that do not lie end to end |
| `HeapOverwrite.SplitOntoHeader` | malloc.c:304-311 | the next request of 2MB less 32 bytes fails the separation test: its split header lies 8 bytes below a header in use |
| `HeapOverwrite.SplitCorruptsList` | malloc.c:304-313 | word by word: every such memory is left with a list in which the block in use at 8MB has size 1 |
| `HeapOverwrite.SplitLosesBytes` | malloc.c:304-313 | the list then holds 2 pages and 25 bytes of the 3 pages it held before |
| `HeapShared.ActInvIff` | malloc.c:211-381 | pages that other users take and give back keep the tiling, heap operations exactly when what they free joins end to end |
| `HeapShared.SharedHistoryTilesIff` | malloc.c:211-381 | with other users of the pool in between, the blocks tile the heap's pages throughout if and only if every free joins blocks that lie end to end |
| `HeapShared.SharedHistorySeparateIff` | malloc.c:211-381 | likewise headers and given memory stay apart if and only if each malloc passes its test |
| `HeapShared.SharedHistoryConserves` | malloc.c:211-381 | such a history loses no byte: what blocks and free pages have less the other users have more; no two consecutive blocks are free |
| `HeapShared.SharedHistoryMallocFailsIff` | malloc.c:211-381 | while each page comes back in order malloc fails exactly when no free block is large enough and the pool holds no run of enough pages |
| `Quicksort.QuicksortLogits` | gguf.c:1308-1323 | terminates and leaves the range descending, a rearrangement of its (value, index) pairs, everything outside untouched |
| `Quicksort.Partition` | gguf.c:1310-1320 | afterwards both parts are shorter than the range, the left at least the pivot and the right at most |
| `Quicksort.PartitionStep` | gguf.c:1313-1319 | one turn keeps the sentinels and the pairs |
| `Quicksort.ScanUp` | gguf.c:1313 | the unguarded scan stops inside the range, at the first entry not above the pivot |
| `Quicksort.ScanDown` | gguf.c:1314 | the unguarded scan stops inside the range, at the last entry not below the pivot |
| `Quicksort.SwappedBounds` | gguf.c:1315-1319 | after an exchange both finished ends serve the scans as sentinels |
| `Quicksort.PartsSorted` | gguf.c:1321-1322 | sorting the two parts one after the other sorts the range |
| `Quicksort.RearrangedWithin` | gguf.c:1321-1322 | rearranging part of a range rearranges the range |
| `Sampling.SumInOrderless` | gguf.c:1416 | sums over a set of tokens do not depend on the order of the pairs |
| `Sampling.FirstAreLargest` | gguf.c:1418-1426 | in descending order no c entries outweigh the first c |
| `Sampling.CutIsOptimal` | gguf.c:1418-1426 | no set of fewer tokens than the cut keeps reaches top_p |
| `Sampling.CutKeepsNucleus` | gguf.c:1416-1426 | the kept tokens are a smallest, most probable set that reaches top_p |
| `Sampling.RankedOnce` | gguf.c:1406-1416 | the ranking lists every token once |
| `Sampling.IntervalsDisjoint` | gguf.c:1428-1437 | at most one cumulative interval contains a number |
| `Sampling.Cut` | gguf.c:1418-1426 | stops at the first rank where the running sum reaches top_p |
| `Sampling.Draw` | gguf.c:1428-1437 | lands on the rank whose cumulative interval contains r |
| `Sampling.NormalisedSumsToOne` | gguf.c:1412-1414 | the normalised probabilities sum to one |
| `Sampling.DistributionIff` | gguf.c:1400-1414 | for an exp that is 1 at zero and stays negative further left once it is: softmax values sum to one, and are a distribution exactly when exp is not negative at the distance between lowest and highest scaled logit |
| `Sampling.SoftmaxInto` | gguf.c:1400-1414 | fills the two buffers with softmax values, negative ones included, and token numbers |
| `Sampling.TopPositive` | gguf.c:1416-1428 | the first rank, and so every cut, has positive probability |
| `Sampling.Rank` | gguf.c:1416 | sorting the buffers gives a ranking of the tokens |
| `Sampling.Pick` | gguf.c:1416-1437 | cut and draw on any ranked values return a token of a smallest set that reaches top_p; on a distribution its interval contains the draw and its probability is positive |
| `Sampling.Sample` | gguf.c:1386-1441 | one whole sampling step from logits to token has that outcome, whatever the signs of the weights, unless they sum to zero |
| `Sampling.Greedy` | gguf.c:1390-1396 | the first token with the largest logit |
| `ExpSeries.ComputeExp` | gguf.c:11-19 | the loop sums the first twenty terms of the series |
| `ExpSeries.ProductIs` | gguf.c:11-19 | the series at t times the series at -t is a polynomial whose coefficients are sums of signed reciprocal factorials |
| `ExpSeries.VanishingCoefficient` | gguf.c:11-19 | its coefficients 1 to 19 vanish |
| `ExpSeries.LaterCoefficient` | gguf.c:11-19 | its coefficients 20 to 38 are not positive |
| `ExpSeries.NegativeFurtherLeft` | gguf.c:11-19 | where the series is negative at a number below zero it is negative further left |
| `ExpSeries.NonNegativeToSix` | gguf.c:11-19 | on [-6, 0] it is not negative |
| `ExpSeries.NegativeFromSixAndAHalf` | gguf.c:11-19 | from -6.5 on it is |
| `ExpSeries.BelowOne` | gguf.c:11-19 | left of zero it is less than one |
| `SoftmaxSign.SoftmaxIsDistributionIff` | gguf.c:1400-1414 | with the program's series: softmax values sum to one, and are a probability distribution exactly when the series is not negative at the distance between lowest and highest scaled logit |
| `SoftmaxSign.SpreadDecides` | gguf.c:1400-1414 | scaled logits within 6 of each other give a distribution, scaled logits 6.5 or more apart never do |
| `SoftmaxSign.LikeliestFirstIff` | gguf.c:1400-1426 | with the program's series, for a top_p of at most 1: a likeliest token is ranked first, the first value is that of a likeliest token, and the cut keeps a likeliest token, each if and only if the softmax weights have a positive sum |
| `SoftmaxSign.FarLogitTakesOver` | gguf.c:1372-1426 | logits 0 and -7 at temperature 0.7 have weights with a negative sum: the likelier token gets a negative value, the other one above 1, and the cut at 0.9 keeps the less likely token alone |
| `CacheLayout.SlotInside` | gguf.c:1156-1158 | the row of every layer and position lies inside the cache |
| `CacheLayout.SlotsApart` | gguf.c:1156-1158 | rows of different layers or positions are disjoint |
| `CacheLayout.ElementInside` | gguf.c:1165-1172 | every element of every key/value head lies inside |
| `CacheLayout.ElementsApart` | gguf.c:1165-1202 | and shares its place with no other layer, position, head or element |
| `CacheLayout.NoWrap` | gguf.c:1156 | when the cache has at most 2^32 elements the 32-bit index expression does not wrap |
| `CacheLayout.WrappedIsRemainder` | gguf.c:1156 | in every case the program's index is the intended one modulo 2^32 |
| `CacheLayout.AllRowsRightIff` | gguf.c:1156 | so every row is where it should be exactly when the last row starts below 2^32 |
| `CacheLayout.AllHeadsRightIff` | gguf.c:1165-1202 | every head is read where it should be exactly when the last layer, the last row of a layer and the last head of a row each start below 2^32 |
| `CacheLayout.ReadsWhatWasWrittenIff` | gguf.c:1156-1202 | a row is read where it was written exactly when its two wrapped products add up to less than 2^32 |
| `CacheLayout.Pow2Floor` | gguf.c:810-812 | the doubling loop finds the largest power of two at most the bound |
| `CacheLayout.CapContext` | gguf.c:805-816 | the capped context and nothing else |
| `CacheLayout.CapIsLargestFit` | gguf.c:807-816 | with room for 256 positions the cap gives the largest power of two within budget, below the original context |
| `CacheLayout.CapWithinBudgetIff` | gguf.c:807-816 | the capped cache keeps to the budget exactly when no cap was needed or 256 positions fit |
| `CacheLayout.BudgetMeansNoWrap` | gguf.c:805-832 | within the budget every index of the forward pass is the intended one |
| `CacheLayout.BudgetMeansHeadsRight` | gguf.c:1165-1202 | within the budget every offset at which attention reads a head, three products wrapped one by one, is the intended one |
| `Recurrence.HiddenIsCausal` | gguf.c:1063-1239 | what enters a layer at a position depends on the tokens up to it only |
| `Recurrence.CachedRowsAreRecomputed` | gguf.c:1155-1204 | rows read from a cache that holds them are the recomputed rows |
| `Recurrence.CachedStepIsRecomputed` | gguf.c:1155-1239 | one layer of cached decoding computes what recomputing every earlier row computes |
| `Recurrence.CachedStep` | gguf.c:1063-1239 | writing the own rows of a layer and reading all rows up to the position keeps the caches right, one layer further |
| `Recurrence.HoldsForExtension` | gguf.c:1351-1364 | cached rows of a prefix serve whatever token follows |
| `Transformer.LogitsAreCausal` | gguf.c:1049-1246 | logits at a position depend on the tokens up to it only |
| `VectorOps.RmsNormInto` | gguf.c:1037-1046 | the normalised and weighted vector |
| `VectorOps.MatVecInto` | gguf.c:442-471 | one inner product per row in the front of the buffer; later elements stay; Emulator.ReturnsDirectProduct has the formats and the hand-off |
| `VectorOps.AddBias` | gguf.c:1075-1089 | adds the bias when there is one |
| `VectorOps.AddInto` | gguf.c:1213-1215 | adds the residual element by element |
| `VectorOps.SwiGluInto` | gguf.c:1225-1229 | SiLU of the gate times up, element by element |
| `VectorOps.NormAllHeads` | gguf.c:1092-1117 | each head normalised on its own, when the layer has a norm |
| `VectorOps.RotateAllHeads` | gguf.c:1121-1153 | each pair of each head turned by the angle of its index and position |
| `AttentionOps.ScoresInto` | gguf.c:1167-1175 | scaled inner products of a query head with the key rows of its group, over cache offsets |
| `AttentionOps.SoftmaxInPlace` | gguf.c:1177-1190 | softmax of the first n scores, the rest of the buffer untouched |
| `AttentionOps.MixInto` | gguf.c:1192-1204 | the weighted sum of the value rows in the place of the head, nothing else changed |
| `AttentionOps.AttendOne` | gguf.c:1163-1205 | one head of attention from the flat caches |
| `AttentionOps.AttendAll` | gguf.c:1163-1205 | all heads, one after the other |
| `AttentionOps.StoreRow` | gguf.c:1155-1158 | the row of one layer and position is overwritten, all other rows stay |
| `AttentionOps.KvHeadInRange` | gguf.c:1165 | the key/value head of every query head exists when heads divide evenly |
| `Forward.Engine.constructor` | gguf.c:818-832 | buffers of the needed sizes, all different, with arbitrary contents |
| `Forward.Engine.Embed` | gguf.c:1053-1060 | the dequantised embedding row of the token |
| `Forward.Engine.Project` | gguf.c:1064-1153 | query, key and value of the position |
| `Forward.Engine.Finish` | gguf.c:1207-1238 | output projection, residual and feed-forward half of a layer |
| `Forward.Engine.LayerPass` | gguf.c:1063-1239 | one layer at one position over the global buffers |
| `Forward.Engine.RunLayers` | gguf.c:1062-1239 | the layer loop leaves the hidden vector of the cache-free definition and the rows of the position in the caches |
| `Forward.Engine.TransformerForward` | gguf.c:1049-1246 | with earlier rows cached, the logits equal those recomputed from the tokens alone, whatever the scratch buffers and the rest of the caches held |
| `Forward.Engine.Prefill` | gguf.c:1351-1357 | caches every prompt token but the last |
| `Forward.Engine.NextToken` | gguf.c:1362-1437 | one forward pass and one choice from recomputed logits |
| `Forward.Engine.Generate` | gguf.c:1346-1461 | the output is that of a generator that recomputes everything from the tokens at every step |
| `Forward.Engine.Continue` | gguf.c:1360-1461 | the loop over new tokens, with its three ways to stop |
| `Quant.HorizontalSumIsSum` | gguf.c:311-318 | two shuffles and adds sum the eight lanes |
| `Quant.LaneGathers` | gguf.c:305-309 | lane j holds the products of elements j, 8+j, 16+j and 24+j |
| `Quant.LanesComputeDot` | gguf.c:305-318 | lane order does not matter: the inner product of the block comes out |
| `Quant.Registers8` | gguf.c:274-291 | the four registers hold the 32 signed bytes in order |
| `Quant.HighNibbles` | gguf.c:339-341 | shifting 16-bit lanes and masking leaves each byte its own high nibble |
| `Quant.CentredByte` | gguf.c:343-357 | wrapping byte subtraction and sign extension centre a nibble at 8 |
| `Quant.Registers4` | gguf.c:336-357 | the four registers hold the 32 centred nibbles, low ones first |
| `Quant.LaneSumIs` | gguf.c:299-318 | four multiply-adds and the lane sum give the inner product of 32 elements |
| `Quant.DotQ8` | gguf.c:266-323 | the block loop computes the 8-lane row sum |
| `Quant.LaneRow8Is` | gguf.c:266-323 | which is the inner product of the dequantised Q8_0 row and the vector, for any number of blocks |
| `Quant.DotQ4` | gguf.c:325-389 | likewise for Q4_0 |
| `Quant.LaneRow4Is` | gguf.c:325-389 | likewise for Q4_0 |
| `Quant.DequantizeQ8` | gguf.c:241-250 | the dequantised row |
| `Quant.DequantizeQ4` | gguf.c:252-263 | the dequantised row, low nibbles in the first half of each block |
| `Gate.InitInv` | igpu.c:17 | the invariant holds at boot, with arbitrary gate contents |
| `GateProofs.StepKeepsInv` | igpu.c:408-510 | every single field access of either side keeps the invariant |
| `GateProofs.RunKeepsInv` | igpu.c:408-510 | it holds after every interleaving |
| `GateProofs.NeverHalfFilled` | gguf.c:457-470 | whenever the emulator reads a field, every field is the running call's and so is all it has read |
| `GateProofs.NeverTogether` | igpu.c:408-420 | while the emulator works on a gate the CPU only polls and no client write happens |
| `GateProofs.ReturnsOwnProduct` | igpu.c:413-420 | when the wait ends, memory is as at the start of the call except for its complete product |
| `GateProofs.ProductIs` | igpu.c:484-504 | the product is one value per row in the output buffer and changes nothing else |
| `GateProofs.StepRank` | igpu.c:416-420 | the step that matters brings the call nearer to its return, any other leaves it as near |
| `GateProofs.HelpLowersRank` | igpu.c:475-510 | events with a turn for the core that matters bring it nearer |
| `GateProofs.FairRunsReturn` | gguf.c:469-470 | under fair scheduling every call returns |
| `GateProofs.CallBound` | gguf.c:457-470 | within rows + 30 fair rounds of its first write |
| `Emulator.ComputeRow` | igpu.c:484-503 | one output of the row loop from the bytes of the weights, by the three branches on the format |
| `Emulator.RunGate` | igpu.c:484-504 | the emulator's work on one gate leaves memory as the interleaving model says |
| `Emulator.RowIsInnerProduct` | gguf.c:442-455 | the format mat_vec_mul chooses for a tensor type makes the emulator compute the inner product with the row dequantised by that type |
| `Emulator.ProductIsMatVec` | gguf.c:442-471 | the product of the gate mat_vec_mul fills is the dequantised matrix times the input |
| `Emulator.MatVecMulReturns` | gguf.c:442-471 | whenever a call returns, in any interleaving, the output buffer holds the dequantised matrix times the input it was called with, and no other memory has changed |
| `Emulator.ReturnsDirectProduct` | gguf.c:442-471 | the output buffer is left as the direct product of the forward pass leaves it |
| `PageTables.TreeSharesNoTable` | igpu.c:123-152 | in a tree, tables reached through different entries are different |
| `PageTables.OtherTree` | igpu.c:262-286 | writes outside the tables of a tree change nothing a walk of it finds |
| `PageTables.AddSecond` | igpu.c:128-136 | entering a cleared fresh table in the root keeps the tree and every translation |
| `PageTables.AddThird` | igpu.c:140-148 | so does entering one in a second-level table |
| `PageTables.SetLeaf` | igpu.c:150-151 | writing a directory entry changes the translation of its page only |
| `PageTables.LayoutWalk` | boot.asm:49-66 | a stretch of root, second-level table and n directories maps pages below 512 n by its entries and no other |
| `PageTables.LayoutTree` | boot.asm:49-66 | and shares no table |
| `PageTables.BootMaps` | boot.asm:49-66 | the boot tables map pages 0 to 32767 and no other |
| `PageTables.BootIsIdentity` | boot.asm:49-66 | every address below 64GB goes to itself, no other is mapped |
| `PageTables.IdentityEntry` | igpu.c:178 | the entry made from the page's own address sends each address of the page to itself |
| `PageAccess.SetPagesEffect` | igpu.c:350-370 | the loop changes the present bits of the lockable pages of its range and nothing else |
| `PageAccess.AccessAllEffect` | igpu.c:343-370 | any sequence of calls changes exactly the present bits it asks for |
| `PageAccess.PrivateTreeUnaffected` | igpu.c:254-289 | a tree without a common table resolves every address as before, whatever the calls |
| `PageAccess.FirstPageNeverLocked` | igpu.c:351 | addresses in page 0 keep their translation |
| `PageAccess.OnlyPresentBit` | igpu.c:365-369 | only the present bit of an entry ever changes |
| `PageAccess.LastCallDecides` | igpu.c:343-370 | the last call that visits a page decides whether it is present |
| `PageAccess.UnvisitedKept` | igpu.c:343-370 | a page no call visits keeps its entry |
| `PageAccess.LockUnlockIff` | igpu.c:343-370 | lock then unlock is the identity exactly when the lockable pages of the range were present |
| `PageAccess.EmptyCallVisits` | igpu.c:345-348 | a call of size 0 visits a page exactly when its address is not 2MB-aligned |
| `Paging.MissingDrops` | igpu.c:128-148 | every table taken for a page is one that the range was missing |
| `Paging.NothingMissing` | igpu.c:177-179 | a range whose pages all translate misses no table |
| `Paging.MappedTranslates` | igpu.c:163-181 | in a mapped range every address goes to itself, elsewhere as before |
| `Paging.PrivateResolvesAsCloned` | igpu.c:254-289 | whatever was mapped, locked or unlocked since, the private tree resolves addresses below 64GB as when it was made and no others |
| `Paging.Mmu.constructor` | boot.asm:49-66 | the boot state satisfies the invariant |
| `Paging.Mmu.EnsureTop` | igpu.c:128-136 | a second-level table is there afterwards exactly when it was or a page was free; no page translates differently |
| `Paging.Mmu.EnsureDir` | igpu.c:140-148 | likewise for a directory |
| `Paging.Mmu.MapPage` | igpu.c:123-152 | the page translates as asked, no other differently; when tables cannot be supplied nothing translates differently; exactly the missing tables leave the pool |
| `Paging.Mmu.MapRange` | igpu.c:163-181 | all touched pages are mapped to themselves with the flags exactly when the pool can supply all missing tables; each is mapped or as before; no other changes; trees stay unshared and the private one unchanged |
| `Paging.Mmu.InitPrivate` | igpu.c:254-289 | a second tree with no shared table that has the entries of the main one for the first 64GB and no others |
| `Paging.Mmu.CopyDirectory` | igpu.c:280-286 | one directory copied behind the others |
| `Paging.Mmu.SetAccess` | igpu.c:343-370 | memory becomes what the sequence lemmas are about, and the invariant stays |
| `Paging.Mmu.SetPage` | igpu.c:350-370 | one turn of that loop |
| `CStrings.StringIs` | malloc.c:401-407 | a NUL-free stretch that ends at a NUL is the string at its start |
| `CStrings.StrLen` | malloc.c:401-407 | the length of the string |
| `CStrings.StrCmp` | malloc.c:409-415 | 0 exactly for equal strings |
| `CStrings.StrNCmp` | malloc.c:417-427 | 0 exactly when the stretches agree up to the first NUL |
| `Tar.DigitsValue` | tar.c:33-42 | octal digits read back as the number they were made from |
| `Tar.OctalRoundTrip` | tar.c:33-42 | a size field ended by a NUL or space reads back, whatever follows |
| `Tar.ParseOctal` | tar.c:33-42 | the value of the digits before the first NUL or space |
| `Tar.RecordAt` | tar.c:94 | record i of an encoding stands at the offset the walk computes |
| `Tar.HeaderReads` | tar.c:79-95 | at that offset the reader finds the name, size and bytes of entry i |
| `Tar.AtCursor` | tar.c:78-83 | the walk goes on exactly while entries are left |
| `Tar.WalkForName` | tar.c:75-97 | exactly the first entry of that name, with its bytes and size, or none when there is none |
| `Tar.HasSuffix` | tar.c:140-143 | whether a name ends in the suffix |
| `Tar.WalkForSuffix` | tar.c:128-160 | exactly the first entry whose name ends so, with its name copied out |
| `Tar.CopyName` | tar.c:144-149 | the buffer holds the name, a NUL and its old remainder |
| `Tar.Initrd.FindFile` | tar.c:72-98 | lookup by name over any archive; nothing before one is mounted |
| `Tar.Initrd.FindBySuffix` | tar.c:108-161 | lookup by suffix over any archive; before one is mounted, the firmware's file for ".instruct" |
| `Tar.Initrd.Init` | tar.c:27-31 | mounts an archive |
| `Tar.Initrd.SetCompanion` | tar.c:103-106 | registers the file of the firmware |
| `VocabIndex.HashStr` | gguf.c:851-857 | the bucket of the bytes, in 32-bit arithmetic |
| `VocabIndex.MatchIsEquality` | gguf.c:907 | for a query without NULs the test of both searches is equality |
| `VocabIndex.IndexAgreesWithScan` | gguf.c:903-924 | for NUL-free queries the index finds a token exactly when the scan does, the largest index where the scan finds the smallest, so both agree exactly when the query does not occur twice |
| `VocabIndex.NulQueriesDiffer` | gguf.c:903-924 | with a NUL in the query, which no caller passes, the two can differ |
| `VocabIndex.LatestIs` | gguf.c:893-898 | a chain leaves out no token of its bucket |
| `VocabIndex.ChainGrows` | gguf.c:894-897 | putting a token in front keeps every chain |
| `VocabIndex.Vocabulary.ChainsDescend` | gguf.c:896 | links lead to smaller indices |
| `VocabIndex.Vocabulary.constructor` | gguf.c:859-900 | all chains are built, the tokenizer type is detected, the beginning-of-text default is set; without memory nothing of it happens |
| `VocabIndex.Vocabulary.DetectSentencePiece` | gguf.c:870-884 | true exactly when some token contains U+2581 |
| `VocabIndex.Vocabulary.FillChains` | gguf.c:893-898 | every bucket's chain runs from its largest index down |
| `VocabIndex.Vocabulary.FindLinear` | gguf.c:906-911 | the smallest matching index or -1 |
| `VocabIndex.Vocabulary.FindToken` | gguf.c:903-924 | the largest matching index of the bucket with the index, the smallest matching one without |
| `VocabIndex.Vocabulary.Walk` | gguf.c:914-923 | the walk along a chain finds the largest match in the bucket |
| `Tokenizer.LongestIs` | gguf.c:958-964 | the piece kept is the longest one in the vocabulary |
| `Tokenizer.TokensTile` | gguf.c:952-996 | the tokens tile the text with longest vocabulary matches of at most 64 bytes or single bytes where there is none |
| `Tokenizer.LiteralSpells` | gguf.c:970-980 | the byte token of every byte stands for that byte |
| `Tokenizer.SpellsTextIff` | gguf.c:942-998 | with all byte tokens in a SentencePiece vocabulary the tokens spell the text exactly when no matched piece has the form of a byte token |
| `Tokenizer.PlainTextHasNoLiteralPiece` | gguf.c:1255 | as in every text without "<0x..>" in it |
| `Tokenizer.LongestMatch` | gguf.c:953-964 | length and token of the longest match |
| `Tokenizer.ByteToken` | gguf.c:970-994 | the byte token, else the unknown token |
| `Tokenizer.NextToken` | gguf.c:952-995 | one turn of the outer loop |
| `Tokenizer.Tokenize` | gguf.c:942-998 | at most length + 1 tokens: the optional beginning-of-text token and those that tile the text |
| `Detokenizer.PrintToken` | gguf.c:1248-1289 | a byte token prints its byte, another token its first 255 bytes with blocks as spaces, an unknown number nothing |
| `Detokenizer.PrintsTextIff` | gguf.c:1248-1289 | when no piece has the form of a byte token, the tokens of a text print as the text with blocks as spaces exactly when no token ends inside a block |
| `Detokenizer.CutShowsMore` | gguf.c:1248-1289 | otherwise they print something longer |
| `Detokenizer.Preprocess` | gguf.c:1001-1035 | the mapped prompt and a NUL, cut at the first byte before which at most four bytes of the buffer, or three outside SentencePiece, are left |
| `Detokenizer.BpeTextDetermines` | gguf.c:926-940 | the text for a BPE vocabulary determines the prompt |
| `Detokenizer.MarksUndone` | gguf.c:1025-1033 | putting spaces back for the marks gives the prompt exactly when it has no U+2581 of its own |
| `Detokenizer.PromptComesBackIff` | gguf.c:1001-1035 | a prompt without U+2581 whose text yields no piece of the form of a byte token comes back through preprocessing, tokenizing and printing, with at most a space before it, exactly when no token ends inside a block |
| `Detokenizer.WholeBlocksStayWhole` | gguf.c:1248-1289 | when U+2581 is a token and no token ends inside one, no token of any text ends inside one |
| `Detokenizer.PlainPromptComesBack` | gguf.c:1001-1035 | the prompt comes back from tests on the vocabulary and the text alone |
| `Detokenizer.WholePromptFits` | gguf.c:1001-1035 | the whole prompt is kept when its mapped bytes leave five bytes of the buffer |
| `GgufFormat.LeRoundTrip` | gguf.c:475 | little-endian numbers read back |
| `GgufFormat.LastAlignmentDecides` | gguf.c:640-643 | the last alignment pair decides |
| `GgufFormat.ClearsLowBits` | gguf.c:689 | clearing the low bits of a power of two rounds down to its multiple |
| `GgufFormat.AlignsIffPowerOfTwo` | gguf.c:687-690 | the formula gives the least aligned offset at or after every cursor exactly when the alignment is a power of two |
| `Gguf.ParseString` | gguf.c:474-481 | place and length of the string, cursor behind it |
| `Gguf.KeyMatch` | gguf.c:74-86 | equality, or for names that start with "llama." the same ending behind a dot |
| `Gguf.ParseValue` | gguf.c:483-575 | the cursor ends behind a value of any of the 13 types; the token list is kept |
| `Gguf.ParseTexts` | gguf.c:541-551 | place and length of every string of an array |
| `Gguf.ParsePair` | gguf.c:634-645 | one pair: cursor, alignment and token list as the writer's pair demands |
| `Gguf.ParseMetadata` | gguf.c:633-646 | all pairs: cursor behind them, last alignment, last token list |
| `Gguf.ParseTensor` | gguf.c:674-684 | name, shape, type and offset of one tensor |
| `Gguf.ParseTensors` | gguf.c:673-685 | those of all tensors |
| `Gguf.PlaceTensors` | gguf.c:692-694 | each data address is the block start plus the offset |
| `Gguf.Parse` | gguf.c:617-694 | refuses a file without the magic; from every other file of the format recovers all tensors, the token list and the aligned data block |
| `PagePool.EligibleMeans` | malloc.c:39-73 | written out: at or above the end of the kernel and 1MB, 2MB-aligned, its start in no module, all its bytes in one usable region |
| `HeapLaws.MallocReuses` | malloc.c:286-316 | the payload of the first free block of at least the rounded request is returned and the pool left alone; with 40 bytes to spare the block is cut and a free block of the rest stands behind it |
| `HeapLaws.MallocExtends` | malloc.c:271-323 | without such a block malloc fails and changes nothing, or takes pages and puts one block of all their bytes behind the list |
| `HeapLaws.PoolUntouchedIff` | malloc.c:295-323 | a successful malloc leaves the pool alone exactly when some free block is at least as large as the rounded request |
| `HeapLaws.Edges` | malloc.c:286-381 | malloc of nothing, free and realloc of NULL, realloc to nothing |
| `HeapLaws.FreedAlone` | malloc.c:326-345 | freeing a block between allocated ones marks it free and changes nothing else |
| `HeapLaws.FreedBlockIsReused` | malloc.c:286-345 | after such a free a malloc that fits returns the pointer again unless an earlier block is large enough; while headers stay apart, in no other case |
| `Sampling.IntervalIsFirst` | gguf.c:1430-1437 | the interval that holds r is that of the first rank at which the running sum is at least r |
| `Recurrence.HiddenUnfolds` | gguf.c:1062-1239 | what enters the next layer is the layer applied to its input and the rows of the positions so far |
| `RotationLaws.UnitsTurn` | gguf.c:1119-1135 | the first unit vector of pair i goes to (cos a, sin a) and the second to (-sin a, cos a) with a = pos / 10000^(i/d) |
| `RotationLaws.LengthKept` | gguf.c:1131-1134 | where cos and sin lie on the unit circle every pair keeps its length |
| `RotationLaws.CommonTurnKeeps` | gguf.c:1119-1153 | turning query and key for the same position keeps their inner product |
| `RotationLaws.TurnsAddUp` | gguf.c:1119-1135 | where cos and sin satisfy the addition laws, turning for position m and then for t is turning for m + t |
| `RotationLaws.RelativePositions` | gguf.c:1119-1175 | then the inner product of a query turned for m with a key turned for n depends on m - n only |
| `RotationLaws.EachHeadTurned` | gguf.c:1121-1129 | head h of the turned vector is the turned head h |
| `TransformerLaws.MatVecColumn` | gguf.c:442-471 | a matrix sends a unit vector to its column |
| `TransformerLaws.MatVecAdds` | gguf.c:442-471 | and sums to sums |
| `TransformerLaws.AddLaws` | gguf.c:1212-1215 | the residual sum is neutral with zero and the same in both orders |
| `TransformerLaws.NormLaw` | gguf.c:1037-1046 | with exact division and root, each normalised element times the root of mean square plus eps is the element times its weight |
| `TransformerLaws.MaxIs` | gguf.c:1177-1181 | the number subtracted is the largest score |
| `TransformerLaws.SoftmaxIs` | gguf.c:1177-1190 | where exp turns sums into products, a share is exp of the score divided by the sum of all of them |
| `TransformerLaws.SharesSumToOne` | gguf.c:1183-1190 | with exact division the shares sum to one, whatever exp is, unless its values sum to zero |
| `TransformerLaws.SharesKeepOrder` | gguf.c:1183-1190 | and keep the order in which exp puts the scores |
| `TransformerLaws.AttendHeadIs` | gguf.c:1162-1204 | one head of attention: the values weighted by exp(q . k / sqrt d), divided by the sum of the weights |
| `TransformerLaws.KvHeadServes` | gguf.c:1165 | key/value head g serves exactly the query heads from g times the group size up to the next multiple |
| `TransformerLaws.EachHeadAttends` | gguf.c:1163-1204 | head h of the attention output is that of query head h over that key/value head |
| `TransformerLaws.QueryHeadIs` | gguf.c:1066-1136 | a query head is projected from the normalised input, biased, normalised where there is a head norm, and turned last |
| `TransformerLaws.KeyHeadIs` | gguf.c:1066-1153 | the same for a key head |
| `TransformerLaws.ValueIs` | gguf.c:1066-1089 | a value is projected and biased only |
| `TransformerLaws.GluIs` | gguf.c:1224-1229 | with exact division a gated element times 1 + exp(-gate) is gate times up |
| `TransformerLaws.FeedForwardIs` | gguf.c:1217-1238 | the feed-forward half adds the down projection of the gated elements to its input |
| `TransformerLaws.LayerIs` | gguf.c:1207-1238 | a layer adds the output projection of its attention and sends that through the feed-forward half |
| `TransformerLaws.HiddenIs` | gguf.c:1062-1239 | the vector of a position after a layer: the layer over its input and the keys and values of the positions up to it |
| `Forward.DecodeIff` | gguf.c:1360-1461 | an output is the generator's exactly when each token is the choice from the prompt and the tokens before it, none is the end token, and it ends at the end token, at the limit or with a full context |
| `WeightBytes.Packed8IsDequantised` | gguf.c:230-250 | memory that holds the blocks of a Q8_0 matrix, two scale bytes and 32 signed bytes each, row after row, dequantises to exactly that matrix |
| `WeightBytes.Packed4IsDequantised` | gguf.c:235-263 | likewise for Q4_0, numbers i and i + 16 of a block sharing a byte |
| `WeightBytes.FloatsAreRead` | igpu.c:494-502 | a matrix of single-precision numbers is read as it was written |
| `WeightBytes.GateSizes` | gguf.c:442-466 | the sizes a gate names are the bytes of the packed matrix and of the two vectors |
| `WeightBytes.PackedProductReturns` | gguf.c:442-471 | when memory holds a packed matrix, a returning call leaves its product with the input in the output buffer and changes nothing else |
| `PageAccess.VisitsIff` | igpu.c:343-350 | a call that is not empty visits exactly the pages in which some address of its range lies |
| `Tar.DigitIs` | tar.c:33-42 | the digit at place k of w stands for 8^(w - 1 - k) |
| `Tar.RecordBytes` | tar.c:5-24 | name in the first 100 bytes, size digits from byte 124, content from 512, next header at the next multiple of 512 |
| `VocabIndex.BucketIsPolynomial` | gguf.c:851-857 | the bucket is the polynomial of the bytes modulo 32768; 32-bit wrap-around changes nothing |
| `Tokenizer.LiteralIff` | gguf.c:970-984 | a string is the byte token of a byte exactly when it is "<0x", two upper-case digits with that value, ">" |
| `Tokenizer.SpelledIs` | gguf.c:1255-1268 | a byte token spells the byte of its two digits, of either case; other characters count as 0 |
| `Tokenizer.ByteTokenFound` | gguf.c:968-994 | a byte that starts no piece is tokenized to an index of the token with its two hexadecimal digits, to the unknown token without one or outside SentencePiece |
| `Tokenizer.LongestPieceFound` | gguf.c:953-967 | where a piece starts, the longest of at most 64 bytes is taken: its largest index with the hash index, its smallest without |
| `Detokenizer.CodePointIs` | gguf.c:926-940 | printable bytes stand for themselves, the others take the code points from 256 on in ascending order |
| `Detokenizer.Utf8Decodes` | gguf.c:1006-1011 | one byte below 128, otherwise two bytes that hold the bits of the code point |
| `GgufFormat.LeByte` | gguf.c:475 | byte k of a number stands for 256^k |
| `GgufFormat.WidthIs` | gguf.c:563-564 | the widths of the 13 value types |
| `GgufFormat.LastTokensDecide` | gguf.c:541-551 | the last token list decides |
| `GgufFormat.PairBytes` | gguf.c:483-575 | the bytes of metadata pairs of each form |
| `GgufFormat.TensorBytes` | gguf.c:674-684 | the bytes of a tensor info |
| `GgufFormat.FileBytes` | gguf.c:617-632 | the bytes of a file |
| `Gguf.KeyMatchesIff` | gguf.c:74-86 | a key matches a name that it equals or, for "llama." and a rest, when it ends in a dot and that rest |
| `TransformerLaws.EmbeddingIs` | gguf.c:1053-1060 | before the first layer stands the embedding row of the token |
| `TransformerLaws.LogitIs` | gguf.c:1241-1245 | the logit of a token is the inner product of its output row with the normalised last vector |
| `Forward.RecomputedIs` | gguf.c:1362-1437 | the choice of the recomputing generator is the sampler on the logits behind the last token |
| `CacheLayout.CacheBytesIs` | gguf.c:803-806 | two caches of four bytes for each element |
| `GgufFormat.NamesAre` | gguf.c:641-643 | magic and keys are these ASCII strings |
| `Tar.NamesAre` | tar.c:108-161 | suffix and file name are these ASCII strings |

## Left out

- Heap.Heap.Malloc: a request that fails the separation test, or would write outside memory, is not modelled byte by byte beyond the history of HeapOverwrite; requests that overflow 64 bits, or whose page count does not fit the `int` cast of malloc.c:223, are not modelled; sizes are unbounded.
- Heap.Heap.Realloc: likewise for the malloc inside it.
- In Heap headers are records found by address, beside a byte memory whose header bytes take arbitrary values when a header is written; the encoding of a header in words is in HeapOverwrite only.
- PagePool.Pool.InitFromMap: the three boot protocols' memory maps are one list of regions and modules; the fixed list of 64 blocks used without a map (malloc.c:115-123, 166-174) and the RAM total are not modelled.
- Forward.Engine.TransformerForward: products are computed directly, and the hand-off to the emulator core separately in Gate; rounding of floats and the accuracy of the series for exp, sin, cos and sqrt are not modelled.
- Forward.Engine.Generate: token lists longer than the 256 entries of gguf.c:1326 and prompts longer than the context are assumed away, as the code does not check them; the sampler is a function of the logits and the step number.
- Sampling.Sample: weights that sum to zero, by which the code divides, are excluded; rounding is not modelled; the random number is a parameter in [0, 1); the xorshift generator and its seed are not modelled.
- GateProofs.FairRunsReturn: one row of the product is one step of the emulator; memory is sequentially consistent; the hardware ring is not modelled, nor the diagnostic of shell.c:120-178, which frees its gate's page.
- The worker loop on `jobs` (gguf.c:413-437): nothing activates a job.
- CacheLayout.CapContext: a 32-bit product of layer count and row width that wraps is excluded.
- Emulator.MatVecMulReturns: the int arithmetic of rows * cols and of row offsets is unbounded.
- Forward.Engine.Embed: copies a row of an already dequantised table; the block decoding stands apart in Quant.
- VectorOps.MatVecInto: the product is computed directly; formats and hand-off are in Emulator, whose ReturnsDirectProduct joins the two.
- Forward.Engine.Prefill: prompts longer than the context are assumed away, as the code does not check them.
- Gguf.ParsePair: a pair `general.alignment` has type UINT32.
- Gguf.ParseMetadata: likewise.
- Paging.Mmu.SetAccess: see PageAccess.InRange.
- Paging.Mmu.MapPage: address bits above 48, flags of the upper levels (always 3) and the flushes of the translation buffer are not modelled.
- Paging.Mmu.InitPrivate: the directories of the first 64GB are assumed present, as the boot tables make them; the code does not check.
- PageAccess.InRange: ranges beyond 512GB, where the code's index leaves the second-level table, and the empty range at address 0 are excluded.
- PCI probing of address ranges (igpu.c:84-120, 183-211) and the compute ring.
- Tar.Initrd.FindFile: names of 100 bytes without a NUL, malformed sizes and `tar_list` are not modelled; places are offsets into the archive.
- Gguf.Parse: hyper-parameters, scores and special token numbers (the key comparisons of gguf.c:496-527 and 552-561), the linking of tensors by name and the head dimensions taken from norm tensors are not modelled; arrays of arrays are not read by the code; the number of dimensions is at most 4 and of tensors at most 512, as the tables require.
- Gguf.ParseValue: the allocation of the token list succeeds.
- Tokenizer.Tokenize: the output array is assumed to have room for every token, which the code does not check.
- Detokenizer.PrintToken: a NUL inside a token ends what the callback sees early.
- Detokenizer.PromptComesBackIff: BPE vocabularies print their mapped bytes and are not decoded.
- Ports, interrupts, frame buffer, keyboard, shell, firmware boot path, ACPI and printf: effects on devices.
- calloc, memset and the heap statistics: easy members.
