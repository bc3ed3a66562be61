# The allocator core of gperftools 2.0 in Dafny

This project models the parts of gperftools 2.0 (the tcmalloc bundled with SOM++) that keep memory
consistent, and proves what they are for.  Each module stands for one component:

- **Page heap** (`Spans`, `SpanSteps`, `Heaps`, `Coalescing`, `PageHeap`, `PageIndex`,
  `PageClients`).  Spans of
  pages with boundary tags, two families of free lists, splitting, carving, merging, releasing,
  growing; aligned allocation and the walk over all ranges on top of it.  `PageHeap` is a class whose
  methods work as the C++ ones do; the invariant (partition, boundary tags with stale interior
  entries, list placement, maximal coalescing, byte totals) is stated on a value, `Heaps.Heap`, and
  each step has a lemma that it keeps it.
- **Page maps** (`FlatMap`, `RadixTree`, `PageMaps`).  The single array and the two- and three-level
  radix trees refine one flat map; `PageIndex` keeps the heap's page map in a three-level tree through
  every operation, and the walk over all ranges reads it there.
- **Size-class cache** (`PackedCache`, `SizeClassCache`).  The packed, lossy page-to-class cache and
  a state machine of threads that allocate, cache, free and ask for sizes.
- **Central free lists** (`CentralFreeList`, `CentralInvariant`, `CentralSteps`, `CentralMoves`,
  `CentralThreads`, `CentralSpans`, `CentralApplication`, `CentralTheorem`).  A state machine of 25
  steps for any number of threads, from the application through the lists of the thread caches to
  slots and spans, with locks dropped in the middle of operations as the code does.
- **Linked lists** (`LinkedLists`).  Span rings and free-object chains as links, refining sequences.
- **Thread caches** (`ThreadBudget`, `ThreadLists`) and **size classes** (`SizeMap`).
- **Leak checker** (`AddressMap`, `Reachability`, `HeapChecker`, `GlobalData`).  The hashed address
  map with its "inside a range" lookup, the conservative flood, the snapshots, the leak check, and
  the subtraction of mapped regions from global data.
- **Memory regions** (`RegionMap`, `RegionLock`).  Interval insertion and removal, and the recursive
  lock, step by step.
- **Hook list** (`HookList`) and **CPU profile** (`ProfileFormat`, `ProfileData`).

`Arithmetic` holds facts about quotients, remainders and powers of two, `Sequences` about sequences
without repetition, `Wrappers` the option type, and `Common` the page size.

Conventions.  Pointers are identifiers or addresses, zero or absence standing for null.  Where the
source updates fields in place the model is a class and each method states its whole new state.
State machines list what one thread does between two points at which another can interfere;
theorems about them are about every run.  What comes from outside is a parameter: the system
allocator's replies, refused allocations of page-map nodes, the words read from memory, the root
ranges of a leak check, the release rate.

Four promises of the source do not hold, and are proved with the exact condition under which they do:

- `RegionMap.FindRegion`: the lookup asks for the first region that ends at or after the address, so
  an address where one region ends and the next begins is not found (`AdjacentMissed`).
- `RegionMap.RecordRegionRemoval`: outside a nested call, a range strictly inside one region takes
  everything before it along, since the left piece is inserted while the region still covers it
  (`SplitLosesLeft`).
- `PageClients.GetNextRange`: the lookup takes the next entry of the page map, so that from inside a
  span it finds that span, which starts before the page (`InsideFindsEarlier`), or a stale entry
  (`InsideFindsStale`).  The documented range is found, whatever stale entries there are, exactly from
  the pages that no span straddles (`DocumentedIffBoundary`).  The one caller, the walk over all
  ranges, only asks from such pages.
- `PageMaps.PageMap1.Ensure`: the test is meant to be free of overflow, but wraps around for a range
  that starts past the end of the map (`PastTheEnd`).

Where documentation and code differ the code is followed: `NonLiveSnapshot` is documented to leave
out ignored objects but does not look at that flag; they are left out of a leak check because they
are made live first.  `RadixTree.EnsureResult` records that ensuring no keys at key zero is taken as
ensuring all keys, and a range that wraps around as none.

## Model

| member | source | states |
|---|---|---|
| Spans.CanonicalForm | gperftools-2.0/src/page_heap.cc:202-239 | two heaps that satisfy the invariant and show the same picture of every page have the same free spans: coalescing leaves no choice |
| Spans.LeftNeighbour | gperftools-2.0/src/page_heap.cc:219-228 | the page map entry just before a span is the span that ends there, or nothing is managed there, although interior entries may be stale |
| Spans.RightNeighbour | gperftools-2.0/src/page_heap.cc:229-236 | the same for the page just behind a span |
| Spans.OtherBefore | gperftools-2.0/src/page_heap.cc:202-239 | in a coalesced heap the page before a free span never belongs to a span with the same location |
| Spans.GiveBackCounts | gperftools-2.0/src/page_heap.cc:294-304 | returning a run of idle pages moves exactly that many pages from the one count to the other |
| SpanSteps.CutTags | gperftools-2.0/src/page_heap.cc:145-161 | cutting a span keeps both end pages of every span mapped to it |
| SpanSteps.CutPartition | gperftools-2.0/src/page_heap.cc:145-161 | cutting a span keeps the spans a partition of the managed pages |
| SpanSteps.AbsorbTags | gperftools-2.0/src/page_heap.cc:219-236 | absorbing a neighbour keeps the boundary tags right, with only the new outer end written |
| SpanSteps.AbsorbPartition | gperftools-2.0/src/page_heap.cc:219-236 | absorbing a neighbour keeps the partition |
| SpanSteps.AbsorbView | gperftools-2.0/src/page_heap.cc:219-236 | absorbing a neighbour changes the state of no page |
| Heaps.UnlistKeepsInv | gperftools-2.0/src/page_heap.cc:253-261 | taking a span off its list keeps the heap invariant with that span out of account, counts included |
| Heaps.EnlistKeepsInv | gperftools-2.0/src/page_heap.cc:241-251 | listing a span of no account restores the full invariant, counts included |
| Heaps.SplitKeepsInv | gperftools-2.0/src/page_heap.cc:145-161 | splitting a span in use keeps the whole invariant and gives exactly the tail pages to the new span |
| Heaps.CarveKeepsInv | gperftools-2.0/src/page_heap.cc:163-184 | carving from a free span, whole or in part, keeps the whole invariant |
| Heaps.CarveView | gperftools-2.0/src/page_heap.cc:163-184 | carving makes exactly the first n pages used; the others keep their state |
| Heaps.RegisterKeepsInv | gperftools-2.0/src/page_heap.cc:333-343 | tagging every page of a span with its size class keeps the invariant |
| Heaps.GrowKeepsInv | gperftools-2.0/src/page_heap.cc:423-446 | a fresh run of pages becomes one span in use, and the invariant, with the byte totals, holds again |
| Coalescing.AbsorbKeepsInv | gperftools-2.0/src/page_heap.cc:219-236 | merging a free neighbour keeps partition, tags, lists and totals |
| Coalescing.AbsorbLeftApart | gperftools-2.0/src/page_heap.cc:219-228 | after one merge on the left no further span with the same location adjoins there |
| Coalescing.AbsorbRightApart | gperftools-2.0/src/page_heap.cc:229-236 | the same on the right |
| Coalescing.ApartCoalesced | gperftools-2.0/src/page_heap.cc:202-239 | a span apart on both sides leaves the heap maximally coalesced |
| Coalescing.LookLeft | gperftools-2.0/src/page_heap.cc:217-219 | the test on the page before the span finds its free neighbour if and only if there is one |
| Coalescing.LookRight | gperftools-2.0/src/page_heap.cc:229-230 | the test on the page behind the span finds its free neighbour if and only if there is one |
| PageHeap.PageHeap.RecordSpan | gperftools-2.0/src/page_heap.h:251-256 | both end pages, and no others, are mapped to the span |
| PageHeap.PageHeap.PrependToFreeList | gperftools-2.0/src/page_heap.cc:241-251 | the span goes to the front of the list for its length and location, and the total of that location grows by its bytes |
| PageHeap.PageHeap.RemoveFromFreeList | gperftools-2.0/src/page_heap.cc:253-261 | the inverse of listing |
| PageHeap.PageHeap.Split | gperftools-2.0/src/page_heap.cc:145-161 | keeps the heap valid; the span keeps its first n pages and a new span in use has the rest, and no other page changes; the 32-bit `extra` does not overflow |
| PageHeap.PageHeap.Carve | gperftools-2.0/src/page_heap.cc:163-184 | keeps the heap valid; exactly n pages come into use and the rest stays free at the same location, even when it came from the returned list |
| PageHeap.PageHeap.MergeIntoFreeList | gperftools-2.0/src/page_heap.cc:202-239 | keeps partition, tags, list placement, maximal coalescing and totals; exactly the span's pages become free |
| PageHeap.PageHeap.Delete | gperftools-2.0/src/page_heap.cc:186-200 | exactly the deleted span leaves the spans in use, its pages become idle, and what the scavenger then moves is only between the two idle states |
| PageHeap.PageHeap.IncrementalScavenge | gperftools-2.0/src/page_heap.cc:263-292 | for every release rate: only idle pages move, only from normal to returned, spans in use and the free lengths stay |
| PageHeap.PageHeap.ReleaseLastNormalSpan | gperftools-2.0/src/page_heap.cc:294-304 | the last span of a list goes back; exactly its pages move from the free to the unmapped total |
| PageHeap.PageHeap.ReleaseRound | gperftools-2.0/src/page_heap.cc:309-330 | one round over all lists from any release index: enough is released, or a round over empty lists shows that nothing is left |
| PageHeap.PageHeap.ReleaseAtLeastNPages | gperftools-2.0/src/page_heap.cc:306-331 | terminates from any release index; afterwards enough pages were released or every normal list is empty; exactly the returned number of pages moved between the totals, spans in use untouched |
| PageHeap.PageHeap.BestOf | gperftools-2.0/src/page_heap.cc:109-143 | the closest sufficient span of a list, lowest address among equals, against the best so far |
| PageHeap.PageHeap.AllocLarge | gperftools-2.0/src/page_heap.cc:109-143 | the best span over both large lists is carved; none is found if and only if neither has one long enough |
| PageHeap.PageHeap.SearchFreeAndLargeLists | gperftools-2.0/src/page_heap.cc:70-91 | takes exactly n pages from a smallest sufficient free span of all lists; fails if and only if no free span is long enough, and then changes nothing |
| PageHeap.PageHeap.RegisterSizeClass | gperftools-2.0/src/page_heap.cc:333-343 | every page of the span maps to it, its class is set, nothing else changes |
| PageHeap.PageHeap.Adopt | gperftools-2.0/src/page_heap.cc:437-446 | a fresh run of pages enters the heap as free pages and a span of the wanted length is there afterwards, whatever the scavenger moved |
| PageHeap.PageHeap.LosePages | gperftools-2.0/src/page_heap.cc:423-451 | when the page map has no room the system bytes have grown with no span for them; these pages are accounted as lost and nothing else changes |
| PageHeap.PageHeap.GrowHeap | gperftools-2.0/src/page_heap.cc:405-452 | asks for a large run first and then for just n; succeeds if and only if memory was had and the page map has room; then a free span of at least n pages is there, system bytes grew by the run and nothing but the scavenger's moves changed; a failure leaves the heap exactly as it was, or with the refused run lost |
| PageHeap.PageHeap.New | gperftools-2.0/src/page_heap.cc:93-107 | exactly n pages of a smallest sufficient free span, of the heap as it was or, if it had none, of the heap after growing and whatever the scavenger moved; it never fails once the heap has grown; managed pages and system bytes grow by the run obtained and no more, no page is lost, all other spans in use stay; a failure leaves the heap as it was or counts the refused run as lost |
| PageHeap.GrowDone | gperftools-2.0/src/page_heap.cc:437-446 | growing and freeing into the heap leaves a free span long enough and touches no span in use |
| PageClients.SkipToAligned | gperftools-2.0/src/tcmalloc.cc:1290-1294 | the skip loop ends with the least number of pages to skip, less than the alignment |
| PageClients.PowersDivide | gperftools-2.0/src/tcmalloc.cc:1238-1241 | of two powers of two the smaller divides the larger: a page-aligned span is aligned for all smaller alignments |
| PageClients.TrimFront | gperftools-2.0/src/tcmalloc.cc:1295-1300 | the skipped pages become idle and all others keep their state, up to the scavenger; system bytes and lost pages stay |
| PageClients.TrimBack | gperftools-2.0/src/tcmalloc.cc:1302-1308 | the same for the pages behind the needed ones |
| PageClients.MemalignPages | gperftools-2.0/src/tcmalloc.cc:1285-1309 | for every power-of-two alignment and size: the result is aligned, exactly as long as needed, new, and the only change among spans in use; no page leaks: every other page is managed as before or comes idle with the run obtained, and system bytes grow by that run; it fails exactly on overflow or when no memory can be had, with the heap as a failed growth leaves it |
| PageIndex.RecordInTree | gperftools-2.0/src/page_heap.h:251-256 | recording the ends of a span in the three-level tree is recording them in the page map |
| PageIndex.Follow | gperftools-2.0/src/page_heap.h:251-256 | whatever changes in the page map, at pages that have leaves, can be stored in the tree so that it holds the page map again |
| PageIndex.EmptyHeap | gperftools-2.0/src/page_heap.cc:55-67 | an empty heap and an empty tree agree |
| PageIndex.SplitInTree | gperftools-2.0/src/page_heap.cc:145-161 | splitting a span, with the page map in the tree: the tree holds it afterwards, and every managed page still has a leaf |
| PageIndex.DeleteInTree | gperftools-2.0/src/page_heap.cc:186-239 | the same for deleting, with all merging and scavenging |
| PageIndex.RegisterInTree | gperftools-2.0/src/page_heap.cc:333-343 | the same for the entries of a size class |
| PageIndex.ReleaseInTree | gperftools-2.0/src/page_heap.cc:306-331 | the same for giving pages back to the system |
| PageIndex.SearchInTree | gperftools-2.0/src/page_heap.cc:70-91 | the same for carving from the best-fitting free span; nothing changes when there is none |
| PageIndex.EnsureRun | gperftools-2.0/src/page_heap.cc:433-437 | the leaves for a run and one page on either side are made if and only if none is refused or out of range, and no entry changes |
| PageIndex.GrowInTree | gperftools-2.0/src/page_heap.cc:405-452 | growing succeeds if and only if the system grants a run and the tree has or gets leaves for it and its neighbours; the tree holds the page map afterwards, and every new page has a leaf |
| PageIndex.NewInTree | gperftools-2.0/src/page_heap.cc:93-107 | allocation from lists, or after growing, keeps tree and heap together; it fails if and only if no free span is long enough and growing fails |
| PageClients.GetNextRange | gperftools-2.0/src/page_heap.cc:366-395 | for any page, through the three-level tree: the range is that of the span which the least entry at or after the page names, unless that entry is stale; from a boundary it is the first range that starts there or later; there is none if and only if no entry is left, and then no managed page is |
| PageClients.NextNamed | gperftools-2.0/src/page_heap.h:139-141 | from a page that no span straddles, whatever stale entries there are, the entry found names the first span that starts there or later |
| PageClients.DocumentedIffBoundary | gperftools-2.0/src/page_heap.h:139-141 | the documented result is given with every page map that the heap may have if and only if no span straddles the page |
| PageClients.FirstWhenBoundary | gperftools-2.0/src/page_heap.h:139-141 | for the page map at hand: the entry found names the first span that starts at the page or later, and is the entry at its start, if and only if no span straddles the page |
| PageClients.InsideFindsEarlier | gperftools-2.0/src/page_heap.h:139-141 | a valid heap where, from inside a span, the range found starts before the page |
| PageClients.InsideFindsStale | gperftools-2.0/src/page_heap.h:139-141 | a valid heap where, from inside a span, the entry found names a span that is gone |
| PageClients.IterateOverRanges | gperftools-2.0/src/tcmalloc.cc:535-561 | on an unchanging heap, walking the three-level tree reports every span exactly once, in address order |
| RadixTree.Stored | gperftools-2.0/src/pagemap.h:153-158 | a store through a leaf changes the value of one key only |
| RadixTree.FlatStored | gperftools-2.0/src/pagemap.h:153-158 | a store through a leaf is a store, or for zero a removal, in the flat map |
| RadixTree.GrownSame | gperftools-2.0/src/pagemap.h:160-180 | new leaves full of zeros change no lookup and take away no leaf |
| RadixTree.FlatGrown | gperftools-2.0/src/pagemap.h:160-180 | new leaves leave the flat map as it was |
| RadixTree.FlatAt | gperftools-2.0/src/pagemap.h:144-151 | a lookup in the tree is a lookup in the flat map, for keys of any size |
| RadixTree.EnsureLeaf | gperftools-2.0/src/pagemap.h:161-179 | one round of the loop ensures all keys up to the next leaf |
| RadixTree.EnsureDone | gperftools-2.0/src/pagemap.h:160-180 | a completed loop: the range is ensured; a range whose last key wraps around is taken as empty, and no keys at zero as all keys |
| RadixTree.EnsureFails | gperftools-2.0/src/pagemap.h:160-180 | a refused call has a key outside the map or a leaf that could not be had |
| RadixTree.SkipNode | gperftools-2.0/src/pagemap.h:299-306 | skipping a missing node skips only keys without a value |
| PageMaps.PageMap1.Get | gperftools-2.0/src/pagemap.h:91-96 | refines the flat map for every key |
| PageMaps.PageMap1.Set | gperftools-2.0/src/pagemap.h:102-104 | the flat map changes at just that key |
| PageMaps.PageMap1.Next | gperftools-2.0/src/pagemap.h:108-114 | the value of the least key at or after k that has one, or zero |
| PageMaps.PageMap1.Ensure | gperftools-2.0/src/pagemap.h:77-85 | the test on 64-bit words, and when it agrees with the one it stands for: if and only if the range starts no later than the end of the map or is too long to wrap around |
| PageMaps.PastTheEnd | gperftools-2.0/src/pagemap.h:77-85 | a range that starts past the end of the map is accepted, unless it is nearly as long as all of memory |
| PageMaps.PageMap2.Get | gperftools-2.0/src/pagemap.h:144-151 | refines the flat map for every key |
| PageMaps.PageMap2.Set | gperftools-2.0/src/pagemap.h:153-158 | works on every ensured key; the flat map changes at just that key; leaves are not shared |
| PageMaps.PageMap2.Ensure | gperftools-2.0/src/pagemap.h:160-180 | the flat map stays, even if only some leaves could be allocated; succeeds if and only if all keys are in the map and all missing leaves are granted, and then every key is ensured |
| PageMaps.PageMap2.Next | gperftools-2.0/src/pagemap.h:187-203 | the value at the least key at or after k that has one, or zero |
| PageMaps.PageMap3.Get | gperftools-2.0/src/pagemap.h:247-256 | refines the flat map for every key |
| PageMaps.PageMap3.Set | gperftools-2.0/src/pagemap.h:258-264 | works on every ensured key; the flat map changes at just that key; neither nodes nor leaves are shared |
| PageMaps.PageMap3.Ensure | gperftools-2.0/src/pagemap.h:266-294 | as for two levels, with nodes and leaves that may each be refused |
| PageMaps.PageMap3.Next | gperftools-2.0/src/pagemap.h:299-320 | the value at the least key at or after k that has one, or zero |
| PackedCache.PackedBits | gperftools-2.0/src/packed-cache-inl.h:156-217 | with whole keys, shifting and masking on 64-bit words is multiplication and division, and both parts come back |
| PackedCache.PartialKey | gperftools-2.0/src/packed-cache-inl.h:198-217 | with partial keys on 32-bit words, a matching entry in the slot of a key was stored for that key |
| PackedCache.PartialEntry | gperftools-2.0/src/packed-cache-inl.h:192-217 | an entry matches the key it was packed for and gives back its value |
| PackedCache.PackDecodes | gperftools-2.0/src/packed-cache-inl.h:156-175 | an entry matches a key if and only if it was packed for it, and then gives back the value |
| PackedCache.Cache.Put | gperftools-2.0/src/packed-cache-inl.h:156-160 | the key is present with its value; any other key that is still present keeps its value, and only one that shares the slot may vanish: a put as the state machine of the cache takes it |
| PackedCache.Cache.Clear | gperftools-2.0/src/packed-cache-inl.h:177-183 | afterwards exactly the keys below the number of slots are present, with the given value |
| SizeClassCache.NextKeepsInv | gperftools-2.0/src/tcmalloc.cc:1096-1177 | every step of any thread, with stale and lost cache entries and stale and overwritten page-map entries, keeps every pointer in a client's or a thread's hands in a published block of the right class |
| SizeClassCache.RunInv | gperftools-2.0/src/tcmalloc.cc:59-65 | the invariant holds after every step of every run |
| SizeClassCache.CacheTruth | gperftools-2.0/src/tcmalloc.cc:59-65 | for the page of any live pointer the cache says nothing or the true size class |
| SizeClassCache.PageMapTruth | gperftools-2.0/src/tcmalloc.cc:1112-1124 | the page map names the block of every pointer in a client's or a thread's hands, so that reading it never meets a stale entry |
| SizeClassCache.CacheAgreesWithPageMap | gperftools-2.0/src/tcmalloc.cc:1107-1150 | in every run the page map names the block of every pointer in anyone's hands, the cache gives its class or nothing, and freeing and any number of size queries for one pointer end as they would with the page map alone |
| CentralSteps.InsTryKeeps | gperftools-2.0/src/central_freelist.cc:150-161 | giving up the lock of one class for that of a victim keeps the invariant, the objects being in transit |
| CentralSteps.InsMissKeeps | gperftools-2.0/src/central_freelist.cc:150-161 | a try that finds no fit class keeps the invariant and counts as one of two |
| CentralSteps.ShrTakeKeeps | gperftools-2.0/src/central_freelist.cc:202-228 | taking an unused slot of another class keeps every cache within its limits and the total budget |
| CentralMoves.ShrForceKeeps | gperftools-2.0/src/central_freelist.cc:202-228 | taking a used slot of another class moves its objects into transit to their spans |
| CentralMoves.InsPushKeeps | gperftools-2.0/src/central_freelist.cc:230-240 | the slot taken after space was made is in range, although the lock was dropped meanwhile |
| CentralSteps.InsReleaseKeeps | gperftools-2.0/src/central_freelist.cc:230-243 | a range that does not go into a slot goes to the spans |
| CentralThreads.AllocKeeps | gperftools-2.0/src/thread_cache.h:335-346 | the head of the thread's own list goes to the application |
| CentralThreads.FreeKeeps | gperftools-2.0/src/thread_cache.h:348-359 | an object goes to the list of its class of the thread that frees it, whichever allocated it |
| CentralThreads.FreeDirectKeeps | gperftools-2.0/src/tcmalloc.cc:1130-1136 | without a thread cache a single object goes into transit to its central list |
| CentralThreads.StartInsertKeeps | gperftools-2.0/src/thread_cache.cc:216-234 | a range off the head of a thread's list goes into transit to the central list of its class |
| CentralThreads.RemSlotKeeps | gperftools-2.0/src/thread_cache.cc:154-187 | a full slot is handed out as a whole: its first object to the application, the others to the thread's list |
| CentralSpans.RelOneKeeps | gperftools-2.0/src/central_freelist.cc:103-145 | an object goes back to its span, which moves to the non-empty list if it was empty |
| CentralSpans.RelLastKeeps | gperftools-2.0/src/central_freelist.cc:103-145 | the last object in use empties the span, which leaves all lists before the lock is dropped to return it |
| CentralSteps.PageDeleteKeeps | gperftools-2.0/src/central_freelist.cc:130-137 | the span goes back to the page heap while neither class lock is held |
| CentralSteps.PageNewKeeps | gperftools-2.0/src/central_freelist.cc:310-327 | a new span, known to one thread only, comes from the page heap without the class lock |
| CentralSpans.PublishKeeps | gperftools-2.0/src/central_freelist.cc:335-357 | the new span joins the non-empty list with all its objects free and counted |
| CentralSpans.FetchOneKeeps | gperftools-2.0/src/central_freelist.cc:291-308 | an object leaves its span, which moves to the empty list if it was the last free one |
| CentralThreads.FetchDoneKeeps | gperftools-2.0/src/thread_cache.cc:154-187 | the same for a range fetched from spans, however many objects were had |
| CentralSpans.RefcountIsInUse | gperftools-2.0/src/central_freelist.cc:103-145 | a listed span's reference count is exactly the number of its objects in other places |
| CentralSpans.InUseCounted | gperftools-2.0/src/central_freelist.cc:103-145 | the count cannot reach zero while an object is out, and when it is one all others are on the span's free list: the span may then be dropped |
| CentralApplication.StepSettles | gperftools-2.0/src/thread_cache.h:335-359 | an object is handed out by allocations only, while the application does not have it, and stays with the application until it is freed |
| CentralTheorem.NextKeepsInv | gperftools-2.0/src/central_freelist.cc:81-357 | each of the 25 steps keeps the invariant |
| CentralTheorem.RunInv | gperftools-2.0/src/central_freelist.cc:81-357 | the invariant holds after every step of every interleaving |
| CentralTheorem.OnePlace | gperftools-2.0/src/central_freelist.cc:81-357 | in every interleaving each object of a listed span is in exactly one place, and once in it: its span's free list, one slot of one class, one thread's hands, one list of one thread cache, or the application; and nothing else is in any of them |
| CentralTheorem.HandedOutOnce | gperftools-2.0/src/thread_cache.h:335-359 | in every interleaving, each step changes the application's objects by exactly what it hands out and takes back, and hands out none that the application has |
| CentralTheorem.CountsInEveryRun | gperftools-2.0/src/central_freelist.cc:103-145 | in every interleaving no object is lost, reference count and free list of a span add up to its capacity and the count is the number of its objects elsewhere, a span is on the non-empty list if and only if it has a free object, and the counters match the lists |
| CentralTheorem.CachesAndLocksInEveryRun | gperftools-2.0/src/central_freelist.cc:150-243 | in every interleaving used slots, cache size and its maximum are in order, the caches together stay within their first total, and no thread has two class locks or one and the page heap's |
| LinkedLists.Spans.Init | gperftools-2.0/src/span.cc:72-75 | an empty ring |
| LinkedLists.Spans.Remove | gperftools-2.0/src/span.cc:77-82 | the ring without the node, linked both ways; the node has null links; nodes of other rings are untouched |
| LinkedLists.Spans.Prepend | gperftools-2.0/src/span.cc:92-99 | the ring with the node first; nodes of other rings are untouched |
| LinkedLists.Spans.Length | gperftools-2.0/src/span.cc:84-90 | the number of nodes |
| LinkedLists.Memory.Push | gperftools-2.0/src/linked_list.h:51-54 | the chain with the element first |
| LinkedLists.Memory.Pop | gperftools-2.0/src/linked_list.h:56-60 | the first element and the rest of the chain |
| LinkedLists.Memory.PopRange | gperftools-2.0/src/linked_list.h:66-83 | the first n objects as a chain of their own, and the rest; one word is written |
| LinkedLists.Memory.PushRange | gperftools-2.0/src/linked_list.h:85-89 | the two chains joined; one word is written |
| LinkedLists.Memory.Size | gperftools-2.0/src/linked_list.h:91-98 | the number of elements |
| AddressMap.AddressMap.FindCluster | gperftools-2.0/src/addressmap-inl.h:213-232 | finds a cluster if and only if one with its number was made |
| AddressMap.AddressMap.FindMutable | gperftools-2.0/src/addressmap-inl.h:294-305 | the entry of the key if the map has it, else none |
| AddressMap.AddressMap.AllocBatch | gperftools-2.0/src/addressmap-inl.h:322-330 | a new batch of entries on the free list, apart from all block lists; the map is unchanged |
| AddressMap.AddressMap.Insert | gperftools-2.0/src/addressmap-inl.h:308-337 | refines the update of a finite map |
| AddressMap.AddressMap.FindAndRemove | gperftools-2.0/src/addressmap-inl.h:340-356 | refines removal from a finite map; the entry goes to the free list |
| AddressMap.AddressMap.FindInside | gperftools-2.0/src/addressmap-inl.h:359-402 | for every size limit: exactly the near range that holds the address, or none if there is none |
| AddressMap.ExactWhenBounded | gperftools-2.0/src/addressmap-inl.h:359-402 | if the limit bounds all sizes, no answer means that no range holds the address |
| AddressMap.AddressMap.Iterate | gperftools-2.0/src/addressmap-inl.h:406-419 | every key is visited exactly once |
| HeapChecker.HeapChecker.NewHook | gperftools-2.0/src/heap-checker.cc:565-589 | any allocation is recorded, in place of one at the same address, and lies within the address bounds kept for the quick test |
| HeapChecker.HeapChecker.DeleteHook | gperftools-2.0/src/heap-checker.cc:591-600 | the allocation is forgotten |
| HeapChecker.HeapChecker.MarkAsLive | gperftools-2.0/src/heap-profile-table.cc:278-285 | marks the object unless it is marked already or is no object |
| HeapChecker.HeapChecker.FindInsideAlloc | gperftools-2.0/src/heap-profile-table.cc:268-276 | the object that an address points to or into, with its size |
| HeapChecker.OutOfBounds | gperftools-2.0/src/heap-checker.cc:1443-1455 | the quick test on the address bounds never loses a pointer |
| HeapChecker.HeapChecker.ScanRange | gperftools-2.0/src/heap-checker.cc:1398-1490 | reading a range marks and lists exactly the unmarked objects that its words, at aligned positions, point to or into |
| HeapChecker.FloodStep | gperftools-2.0/src/heap-checker.cc:1387-1490 | one round of the flood: every marked object is reachable, and every marked object and every root has been read or is still on the list |
| HeapChecker.EndFlood | gperftools-2.0/src/heap-checker.cc:1387-1490 | with the list empty exactly the reachable objects are marked in addition |
| HeapChecker.HeapChecker.IgnoreLiveObjects | gperftools-2.0/src/heap-checker.cc:1382-1497 | the flood terminates; afterwards exactly those objects are live that were, or that a path of pointers reaches from the roots |
| HeapChecker.HeapChecker.IgnoredObjects | gperftools-2.0/src/heap-checker.cc:726-733 | exactly the ignored objects, as roots |
| HeapChecker.HeapChecker.IgnoreAllLiveObjects | gperftools-2.0/src/heap-checker.cc:1252-1345 | exactly the justified objects are marked: reachable from the given ranges, or ignored, or reachable from an ignored object |
| HeapChecker.HeapChecker.AddIfNonLive | gperftools-2.0/src/heap-profile-table.cc:490-501 | a marked object is unmarked; another goes to the snapshot unless the base has it |
| HeapChecker.HeapChecker.NonLiveSnapshot | gperftools-2.0/src/heap-profile-table.cc:567-582 | exactly the unmarked objects that are not in the base, with their number and total size; all marks are cleared |
| HeapChecker.HeapChecker.NoLeaks | gperftools-2.0/src/heap-checker.cc:1749-1790 | exactly the objects since the base snapshot that nothing justifies are reported, the second look at every address reports none that the first does not, and the record is left as it was |
| HeapChecker.FinerJustifies | gperftools-2.0/src/heap-checker.cc:1777-1790 | what is justified at some alignment is justified at alignment 1 |
| HeapChecker.DropBytes | gperftools-2.0/src/heap-profile-table.cc:567-582 | the total size does not depend on the order of visits |
| Reachability.ClosedCovers | gperftools-2.0/src/heap-checker.cc:1382-1497 | a set closed under pointers that has all root targets has everything reachable |
| Reachability.OneRoot | gperftools-2.0/src/heap-checker.cc:1387-1393 | what several roots reach together is what they reach one by one |
| Reachability.FinerReachesMore | gperftools-2.0/src/heap-checker.cc:1777-1790 | looking at every address reaches everything that looking at aligned addresses reaches |
| GlobalData.InSpecialRange | gperftools-2.0/src/heap-checker.cc:1165-1172 | the lookup by range ends finds a caller if and only if it lies strictly inside some range |
| GlobalData.ToSubtract | gperftools-2.0/src/heap-checker.cc:1160-1174 | a region is taken out if and only if it is a stack or has no special caller |
| GlobalData.Subtract | gperftools-2.0/src/heap-checker.cc:1179-1206 | the pieces of a range cover exactly what of it is not in the region |
| GlobalData.SubtractRegion | gperftools-2.0/src/heap-checker.cc:1175-1212 | the same for all ranges at once |
| GlobalData.FilterByRegions | gperftools-2.0/src/heap-checker.cc:1149-1214 | exactly the addresses in some range and in no excluded region are left as roots |
| RegionMap.RegionMap.FindRegion | gperftools-2.0/src/memory_region_map.cc:297-320 | finds a region for an address if and only if one covers it and no other ends exactly there |
| RegionMap.AdjacentMissed | gperftools-2.0/src/memory_region_map.cc:297-312 | an address where one region ends and the next begins is covered and yet not found |
| RegionMap.RegionMap.DoInsertRegion | gperftools-2.0/src/memory_region_map.cc:351-380 | any region goes to its place by end, unless the first recorded one that ends no earlier starts no later or ends at the same address; regions that were apart stay so if and only if it is refused or overlaps none; one that overlaps only regions it lies within is added or lies within one that is there |
| RegionMap.InsertApart | gperftools-2.0/src/memory_region_map.cc:367-376 | a region that the set takes keeps the regions apart if and only if it overlaps none |
| RegionMap.OverlapRecorded | gperftools-2.0/src/memory_region_map.cc:358-376 | a mapping that overlaps the start of a recorded one is recorded beside it |
| RegionMap.SameEndLost | gperftools-2.0/src/memory_region_map.cc:358-376 | a mapping that ends with a recorded one and starts before it is not recorded, and its first addresses are lost |
| RegionMap.RegionMap.HandleSavedRegions | gperftools-2.0/src/memory_region_map.cc:395-405 | all regions set aside are recorded unless refused, and nothing else changes; if they fit, exactly their addresses become covered |
| RegionMap.RegionMap.InsertRegion | gperftools-2.0/src/memory_region_map.cc:407-440 | in a nested call the region is set aside, else it, all set aside before and all that nested calls set aside meanwhile are recorded unless refused; if they fit, exactly their addresses become covered |
| RegionMap.RegionMap.SaveNested | gperftools-2.0/src/memory_region_map.cc:407-426 | mappings made while a region is inserted are set aside, in order, and nothing else changes |
| RegionMap.RegionMap.RecordRegionAddition | gperftools-2.0/src/memory_region_map.cc:450-472 | any mapping is recorded or set aside, with those nested in it; if they fit, exactly their addresses become covered |
| RegionMap.RegionMap.DropSaved | gperftools-2.0/src/memory_region_map.cc:476-502 | exactly the saved regions with these very bounds are dropped |
| RegionMap.RegionMap.SubtractOne | gperftools-2.0/src/memory_region_map.cc:522-573 | each region is left, dropped, cut or split by where the range lies |
| RegionMap.RegionMap.RecordRegionRemoval | gperftools-2.0/src/memory_region_map.cc:474-581 | afterwards no region meets the range, no address is gained and pieces keep their call stack; exactly the range is lost if and only if it lies strictly inside no region; in a nested call exactly the range is lost always, whatever has been set aside, and what is cut off on the left is set aside too |
| RegionMap.SplitDrops | gperftools-2.0/src/memory_region_map.cc:537-549 | the left piece of a split lies within the region that is not cut yet, so that the set never takes it |
| RegionMap.ExactWhen | gperftools-2.0/src/memory_region_map.cc:522-573 | the exact condition under which only the range is lost |
| RegionMap.SplitLosesLeft | gperftools-2.0/src/memory_region_map.cc:537-549 | cutting 10..20 out of 0..30 leaves 20..30 only |
| RegionMap.NestedCovers | gperftools-2.0/src/memory_region_map.cc:407-426 | what a nested removal cuts off on the left is set aside and so kept |
| RegionLock.NextKeepsInv | gperftools-2.0/src/memory_region_map.cc:248-290 | every load and store of Lock and Unlock keeps the invariant; no check fails but the one on the depth of nesting, for a client that nests deeper than five |
| RegionLock.MutualExclusion | gperftools-2.0/src/memory_region_map.cc:248-290 | at any time at most one thread has Lock calls outstanding |
| RegionLock.OwnershipInEveryRun | gperftools-2.0/src/memory_region_map.cc:248-257 | while the lock is free the count is zero; outside its calls a thread holds the lock if and only if it is the recorded owner and the count is positive, and then the count is that of its outstanding calls |
| RegionLock.NeverWaitsForItself | gperftools-2.0/src/memory_region_map.cc:258-269 | no thread waits for the lock while it holds it |
| RegionLock.NoCheckFails | gperftools-2.0/src/memory_region_map.cc:258-290 | balanced clients that nest at most five deep never see a check fail |
| RegionLock.NoDeadlock | gperftools-2.0/src/memory_region_map.cc:258-290 | some thread in a call can always go on, unless the holder is outside any call |
| HookList.NextKeepsInv | gperftools-2.0/src/malloc_hook.cc:204-269 | every single load and store of Add, Remove and Traverse keeps the invariant |
| HookList.EndInEveryRun | gperftools-2.0/src/malloc_hook.cc:204-252 | no access is out of bounds; slots at or past the end are zero except for the one filled between the two stores of a running Add; while the lock is free the end is zero if and only if there is no hook |
| HookList.ChangesInEveryRun | gperftools-2.0/src/malloc_hook.cc:204-252 | the list changes only where Add fills the first empty slot or Remove clears the first slot with its hook |
| HookList.FailuresInEveryRun | gperftools-2.0/src/malloc_hook.cc:204-252 | Add fails only on a full list, Remove only when the hook is not there |
| HookList.TraverseFindsRegistered | gperftools-2.0/src/malloc_hook.cc:255-269 | a hook registered when a traversal begins, and kept in its slot until it ends, is returned, if there is room for the slots up to its own |
| HookList.TraverseReturnsStored | gperftools-2.0/src/malloc_hook.cc:255-269 | each hook returned was in the slot that the traversal read, at the step that read it; times and slots increase from one to the next |
| ProfileFormat.RoundTrip | gperftools-2.0/src/profiledata.cc:117-126 | a profile followed by anything reads back as itself |
| ProfileFormat.Unique | gperftools-2.0/src/profiledata.cc:164-188 | what reads as a profile can only have been written from that profile |
| ProfileFormat.RecordsRoundTrip | gperftools-2.0/src/profiledata.cc:65-77 | the same for the records up to the end marker |
| ProfileFormat.RecordsUnique | gperftools-2.0/src/profiledata.cc:65-77 | the same, the other way |
| ProfileFormat.TallyUpdate | gperftools-2.0/src/profiledata.cc:278-318 | replacing one entry changes the count of a trace by the difference of the two |
| ProfileData.ProfileData.Start | gperftools-2.0/src/profiledata.cc:91-129 | an empty collector whose output begins with the header |
| ProfileData.ProfileData.Evict | gperftools-2.0/src/profiledata.cc:65-77 | the record is added to what was given out; the buffer never overflows |
| ProfileData.ProfileData.FlushEvicted | gperftools-2.0/src/profiledata.cc:323-331 | what was given out stays the same, all of it written |
| ProfileData.ProfileData.Find | gperftools-2.0/src/profiledata.cc:278-297 | the entry of the trace in its bucket if and only if there is one |
| ProfileData.ProfileData.Smallest | gperftools-2.0/src/profiledata.cc:299-307 | an entry of the bucket with the smallest count |
| ProfileData.ProfileData.Add | gperftools-2.0/src/profiledata.cc:260-319 | counts the trace, cut to 64 frames, once; a trace not in the table takes the place of the least seen one of its bucket, which is given out; per trace, what was added is what was given out plus what is in the table |
| ProfileData.ProfileData.FlushTable | gperftools-2.0/src/profiledata.cc:239-260 | everything counted so far is in the file and the table is empty |
| ProfileData.ProfileData.Stop | gperftools-2.0/src/profiledata.cc:164-196 | the file is one profile, whatever follows it, and says of each trace how often it was added |
| ThreadBudget.ThreadCaches.IncreaseCacheLimit | gperftools-2.0/src/thread_cache.cc:276-304 | one step is claimed while space is unclaimed, else stolen from the first of the next ten caches that has more than the minimum, if any; the sum of shares and unclaimed space stays; the loop never runs on an empty list |
| ThreadBudget.ThreadCaches.Steal | gperftools-2.0/src/thread_cache.cc:283-303 | the victim is the first suitable cache in list order from the last place on, going round; the sum of shares stays |
| ThreadBudget.RoundFindsVictim | gperftools-2.0/src/thread_cache.cc:283-303 | a round of as many tries as there are caches finds a victim whenever some other cache is above the minimum |
| ThreadBudget.ThreadCaches.NewHeap | gperftools-2.0/src/thread_cache.cc:389-405 | a listed cache with one step, or with the minimum exactly when nothing is unclaimed and no victim is found; the budget adds up, with unclaimed space negative in that case |
| ThreadBudget.ThreadCaches.DeleteCache | gperftools-2.0/src/thread_cache.cc:442-458 | the share goes back, the budget adds up and the next victim is a listed cache whenever there is one |
| ThreadBudget.ThreadCaches.RecomputePerThreadCacheSize | gperftools-2.0/src/thread_cache.cc:460-481 | shares shrink in proportion or stay, and the budget adds up again |
| ThreadBudget.ThreadCaches.SetOverallThreadCacheSize | gperftools-2.0/src/thread_cache.cc:494-501 | the whole is clipped to its range and the budget adds up to it |
| ThreadBudget.Removed | gperftools-2.0/src/thread_cache.cc:446-455 | without a cache the list has the others, and its total is less by that share |
| ThreadLists.ThreadCache.Allocate | gperftools-2.0/src/thread_cache.h:335-345 | an object from the list, or from a fetch that fills the empty list and lets it grow; the byte size is that of the listed objects |
| ThreadLists.LongerOk | gperftools-2.0/src/thread_cache.cc:170-187 | the allowed length grows one by one up to a batch, then stays a multiple of it, and never passes the maximum |
| ThreadLists.ThreadCache.ListTooLong | gperftools-2.0/src/thread_cache.cc:191-213 | a batch goes to the central list; the allowed length grows if and only if it is below a batch, and shrinks, by a batch and with the count starting anew, if and only if it is above one and the overages have reached their limit |
| ThreadLists.Converges | gperftools-2.0/src/thread_cache.cc:195-212 | a list that keeps getting too long ends up with an allowed length of one batch, from any length, and stays there |
| ThreadLists.ThreadCache.ReleaseToCentralCache | gperftools-2.0/src/thread_cache.cc:216-234 | exactly the first objects go, in order, in chains of at most a batch |
| ThreadLists.ThreadCache.Scavenge | gperftools-2.0/src/thread_cache.cc:237-269 | every list gives up half of its low-water mark, and its allowed length one batch, never below one |
| ThreadLists.ThreadCache.Deallocate | gperftools-2.0/src/thread_cache.h:347-370 | list by list, what is released and what stays is what there was with the object in front; nothing is released while the list and the cache have room |
| SizeMap.LgFloor | gperftools-2.0/src/common.cc:41-53 | the position of the highest bit |
| SizeMap.AlignmentForSize | gperftools-2.0/src/common.cc:55-75 | the alignment as a table; from 128 on at most an eighth of the size, from 16 on at least 16 |
| SizeMap.SizesStayAligned | gperftools-2.0/src/common.cc:114-117 | going from size to size by the alignment keeps sizes aligned and meets the largest size exactly; sizes are multiples of 8, above 1024 of 128 |
| SizeMap.SpanPages | gperftools-2.0/src/common.cc:118-131 | for every object size the loop ends with the fewest pages that waste at most an eighth and hold at least one object and a quarter of a batch |
| SizeMap.BuildClasses | gperftools-2.0/src/common.cc:110-150 | there are 86 classes; their sizes strictly increase up to the largest size; every class has the least span that serves it; no two neighbours should have been merged; and every size merged into a class would have got the same pages and as many objects on its own |
| SizeMap.CountAll | gperftools-2.0/src/common.cc:110-155 | the loop over the sizes makes 86 classes, counting the unused class zero |
| SizeMap.NoneBetween | gperftools-2.0/src/common.cc:114-115 | the loop looks at every aligned size |
| SizeMap.SamePlace | gperftools-2.0/src/common.h:172-178 | sizes that share a place in the lookup table share a class |
| SizeMap.FillClassArray | gperftools-2.0/src/common.cc:156-164 | for any increasing table of multiples of 8, of 128 above 1024, that ends at the largest size: every size gets the smallest class that fits |
| SizeMap.SizeMap.Init | gperftools-2.0/src/common.cc:99-188 | succeeds if and only if the number expected is 86, and then all tables agree |
| SizeMap.CarveObjects | gperftools-2.0/src/central_freelist.cc:337-350 | as many objects as fit, side by side within the span; at most an eighth is left over |

## Left out

- SOM++ itself (the interpreter, compiler and collectors under `src/`) is not part of this model; the bundled allocator is.
- PageHeap.PageHeap.Split: span lengths stay below 2^31 because the heap is taken to manage fewer than 2^31 pages; what a longer `int extra` would do is not modelled.
- PageHeap: the page map is a finite map here; `PageIndex` stores its changes in a radix tree after each operation of the heap, where the code stores them one by one during it.
- PageHeap: free lists are sequences of spans; that rings of links refine sequences is proved in `LinkedLists`.
- PageHeap: statistics, `Check`, sampling of large allocations and the growth stack traces are left out: they read the heap or count calls, and change no span.
- AddressMap: 64-bit wrap-around at the top of the address space is not modelled; ranges lie in the natural numbers.
- SizeClassCache: memory ordering is sequential consistency.
- CentralFreeList: liveness and fairness are not stated; the choice of the victim class is any choice.
- CentralFreeList: how many objects a thread fetches or gives back, and when, is any choice; the code's choice is in `ThreadLists` and `ThreadBudget`. A thread that frees an object has it from the application; freeing twice is not modelled.
- ThreadLists: a fetch from the central list is a parameter, and the growth of the limit at the end of `Scavenge` is in `ThreadBudget`.
- ThreadBudget: the ratio is a real number, so that rounding of `double` is not modelled.
- SizeMap: the 64-bit configuration with pages of 8192 bytes is modelled, not the large pages that make 78 classes.
- HeapChecker: thread stacks, registers and the ranges of loaded libraries are inputs; byte totals of live objects, which are only logged, are not kept.
- RegionMap: a call that would set aside more than the twenty regions there is room for, which ends the program, is not modelled; of the insertions of one call only that of the new region maps memory, not those of regions set aside or cut.
- RegionLock: the time before threads exist, when every caller counts as the owner, is not modelled, and `LockIsHeld` is not claimed to be an ownership test.
- HookList: loads and stores are sequentially consistent; the deprecated single-hook variables are left out.
- ProfileData: counts do not wrap at 2^64, and the list of mapped libraries that follows the profile is any sequence of words.
- System allocation, stack unwinding, symbols, flags, signals and text output are left out.
