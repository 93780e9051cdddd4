# Syzygy ASan shadow memory, stack capture cache and basic-block subgraph rules

A Dafny model of three pieces of the Syzygy toolchain, with their properties proved.

**Shadow memory** (`shadow_marker.dfy`, `shadow.dfy`, `shadow_walker.dfy`).
- The ASan runtime keeps one shadow byte per 8-byte granule of application memory. The value of each byte comes from the `ShadowMarker` table.
- `ShadowMarker` decodes a raw byte to a tagged `Marker` and back. The table is proved to be a bijection between bytes and well-formed markers. The classification predicates are proved against it: accessible, block start, left and right redzone.
- `AsanShadow.Shadow` holds the shadow as a byte array whose length is a parameter; the real runtime uses `kShadowSize` bytes. `Poison`, `Unpoison`, `MarkAsFreed` and `CloneShadowRange` update the array in place.
  - `Unpoison`, `MarkAsFreed` and `CloneShadowRange` are each proved against a function on sequences (`Fill`, `Splice`). `Poison` is proved against `Fill` on every granule except a partly covered first one.
  - Each then states what the query predicates report afterwards.
- `GetNullTerminatedArraySize` is the bounded scan that checks the shadow before it reads a byte of memory.
- `AsanShadowWalker.ShadowWalker` lists the block-start granules of a region, in increasing order. It is proved against the specification function `BlockStarts`.

**Stack capture cache** (`stack_capture_cache.dfy`).
- `CachePage` is a bump allocator over `kDataSize` bytes. Pages are linked newest first, and only the most recent allocation can be released.
- `StackCaptureCache` deduplicates stack traces. Each distinct (truncated) frame sequence has one record with a saturating reference count; records are bump-allocated from the current page, and a new page is linked in when the current one is full.
- The cache keeps an invariant:
  - no two records share a byte;
  - every record lies inside the used part of a cache page;
  - the page byte total, the counters and the sum of reference counts agree with the cache's contents.
- `SaveStackTrace`, `ReleaseStackTrace` and `GetStatisticsUnlocked` are each proved to keep that invariant, and to have the effect the header describes.

**Basic-block subgraph** (`basic_block_subgraph.dfy`).
- These are the rules the subgraph's unit tests assert:
  - `AddBasicBlock` refuses a block whose half-open range in the original block overlaps one already added. Blocks with offset -1 are always accepted.
  - `MapsBasicBlocksToAtMostOneDescription` holds exactly when no basic block is laid out by two block descriptions.
  - `BlockDescription::GetMaxSize` is the sum of its blocks' maximal sizes.
- Each test is a client method whose postcondition states the test's expectations.

`wrappers.dfy` holds the `Option` type.

## Model

| member | source | states |
|---|---|---|
| ShadowMarker.Decode | trunk/syzygy/agent/asan/shadow.h:49-107 | every shadow byte decodes to a well-formed marker of the table, and encoding that marker gives the byte back |
| ShadowMarker.DecodeEncode | trunk/syzygy/agent/asan/shadow.h:49-107 | every well-formed marker survives an encode/decode round trip, so the table is a bijection |
| ShadowMarker.NonAccessibleMaskIsInaccessible | trunk/syzygy/agent/asan/shadow.h:57-60 | a byte with the 0xe0 mask set makes every byte of its granule inaccessible |
| ShadowMarker.FullyAccessibleIffAddressable | trunk/syzygy/agent/asan/shadow.h:50-55 | every byte of a granule is accessible if and only if its shadow byte is 0x00 |
| ShadowMarker.IsAccessibleMarker | trunk/syzygy/agent/asan/shadow.h:127-130 | a byte of a granule is accessible exactly when the shadow byte is 0x00, or is a partial count 1..7 above the byte's offset in the granule |
| ShadowMarker.IsBlockStartByteMarker | trunk/syzygy/agent/asan/shadow.h:204-208 | a marker is a block-start marker exactly when it lies in 0xe8..0xef, exactly when it decodes to a block start |
| ShadowMarker.BlockStartIsInaccessible | trunk/syzygy/agent/asan/shadow.h:57-73 | every block-start marker carries the 0xe0 mask, so block-start granules are inaccessible |
| ShadowMarker.IsLeftRedzoneMarker | trunk/syzygy/agent/asan/shadow.h:216-221 | a left-redzone marker is the left-redzone byte or a block-start byte (the header) |
| ShadowMarker.IsRightRedzoneMarker | trunk/syzygy/agent/asan/shadow.h:223-228 | a right-redzone marker is the right-redzone byte or the block-end byte (the trailer) |
| ShadowMarker.RedzonesAreInaccessible | trunk/syzygy/agent/asan/shadow.h:216-228 | no marker is both a left and a right redzone, and no redzone byte is accessible |
| AsanShadow.Pow2Add | trunk/syzygy/agent/asan/shadow.h:37-40 | powers of two multiply, which turns the shifts of the address constants into products |
| AsanShadow.AddressBounds | trunk/syzygy/agent/asan/shadow.h:32-40 | the shadow has 2^28 bytes and the upper bound is 2^31, `kShadowSize << kShadowRatioLog`; the lower bound is below it; every address between the bounds has a shadow index below `kShadowSize` |
| AsanShadow.GranuleMapping | trunk/syzygy/agent/asan/shadow.h:37-40 | `addr >> 3` maps exactly the 8 addresses of a granule to its index and back |
| AsanShadow.AlignUp | trunk/syzygy/agent/asan/shadow.h:109-114 | the first granule boundary at or above an address is aligned and less than 8 bytes above it |
| AsanShadow.TouchedGranules | trunk/syzygy/agent/asan/shadow.h:122-125 | the granules from the one holding `addr` up to `TouchedEnd` are exactly those holding a byte of `[addr, addr + size)`, none for an empty range |
| AsanShadow.Fill | trunk/syzygy/agent/asan/shadow.h:109-125 | the fill of a shadow range keeps the shadow's length |
| AsanShadow.Splice | trunk/syzygy/agent/asan/shadow.h:169-178 | the copy of a shadow range keeps the shadow's length |
| AsanShadow.Shadow.constructor | trunk/syzygy/agent/asan/shadow.h:42-43 | a fresh shadow has the given number of granules, all 0x00 |
| AsanShadow.Shadow.GetShadowMarkerForAddress | trunk/syzygy/agent/asan/shadow.h:132-135 | the result is the shadow byte of the granule whose 8 addresses include `addr` |
| AsanShadow.Shadow.MarkerIsPerGranule | trunk/syzygy/agent/asan/shadow.h:132-135 | two addresses share their shadow index exactly when they lie in one granule, and then they read the same marker |
| AsanShadow.Shadow.IsAccessible | trunk/syzygy/agent/asan/shadow.h:127-130 | an address is accessible exactly when its marker is 0x00, or its offset in the granule is below a partial value 1..7 |
| AsanShadow.Shadow.IsBlockStartByte | trunk/syzygy/agent/asan/shadow.h:210-214 | an address in a block-start granule is never accessible |
| AsanShadow.Shadow.IsLeftRedzone | trunk/syzygy/agent/asan/shadow.h:216-221 | a left-redzone address is not accessible and not in a right redzone |
| AsanShadow.Shadow.IsRightRedzone | trunk/syzygy/agent/asan/shadow.h:223-228 | a right-redzone address is not accessible |
| AsanShadow.Shadow.Poison | trunk/syzygy/agent/asan/shadow.h:108-114 | with `addr + size` aligned, the new shadow is the old one with every granule wholly inside the range set to the marker, except that a partly covered first granule is left unconstrained; an inaccessible marker makes every byte of those granules inaccessible |
| AsanShadow.Shadow.Unpoison | trunk/syzygy/agent/asan/shadow.h:116-120 | with address and size aligned, the range's granules become 0x00, exactly that fill of the old shadow, so every byte of the range is accessible |
| AsanShadow.Shadow.MarkAsFreed | trunk/syzygy/agent/asan/shadow.h:122-125 | the new shadow is the old one with exactly the granules holding a byte of the range set to 0xfd (none for an empty range), so every byte of the range is freed and inaccessible |
| AsanShadow.Shadow.CloneShadowRange | trunk/syzygy/agent/asan/shadow.h:169-178 | with all three aligned, the destination granules take the source granules' old values (overlap included) and nothing else changes |
| AsanShadow.Shadow.GetNullTerminatedArraySize | trunk/syzygy/agent/asan/shadow.h:150-167 | the reported bytes are all accessible; on true they end in the first all-zero element; on false no terminator is found, and `size` is the offset of the first inaccessible byte or the nonzero `max_size`, which the scan never exceeds |
| AsanShadowWalker.BlockStartsSorted | trunk/syzygy/agent/asan/shadow.h:261-279 | every address the walk lists is a granule of the region holding a block-start marker, and the list strictly increases |
| AsanShadowWalker.BlockStartsComplete | trunk/syzygy/agent/asan/shadow.h:261-279 | every block-start granule of the region is listed |
| AsanShadowWalker.ShadowWalker.PendingHead | trunk/syzygy/agent/asan/shadow.h:290-292 | `next_block_` is the next block to report, and is `upper_bound_` exactly when none is left |
| AsanShadowWalker.ShadowWalker.constructor | trunk/syzygy/agent/asan/shadow.h:265-271 | a new walker is about to report every block of its region |
| AsanShadowWalker.ShadowWalker.Next | trunk/syzygy/agent/asan/shadow.h:273-279 | true yields the next pending block start, which lies in the region and is below every block still to come; false sets `block_begin >= upper_bound` and nothing is left |
| AsanShadowWalker.ShadowWalker.Reset | trunk/syzygy/agent/asan/shadow.h:281-282 | after a reset the walker is to report every block of its region again, as after construction |
| AsanShadowWalker.ShadowWalker.Advance | trunk/syzygy/agent/asan/shadow.h:285-292 | `next_block_` moves to the first block after the current one, or to `upper_bound_` |
| AsanShadowWalker.ShadowWalker.Seek | trunk/syzygy/agent/asan/shadow.h:285-292 | the scan from a granule boundary stops at the first block start there or after it, or at `upper_bound_`, so the blocks pending are exactly those from that boundary on |
| StackCaptures.PageGeometry | syzygy/agent/asan/stack_capture_cache.h:224-237 | a page is its link, its `bytes_used_` and `kDataSize` bytes of data; `kDataSize < kCachePageSize`; the page size is a multiple of 4096 |
| StackCaptures.StackCaptureSize | syzygy/agent/asan/stack_capture_cache.h:197-201 | a capture takes a nonzero number of bytes, growing with the number of frames it can hold |
| StackCaptures.TruncatedFrames | syzygy/agent/asan/stack_capture_cache.h:89-96 | a saved capture keeps a prefix of the frames, of `num_frames` frames but never more than `max_num_frames` |
| StackCaptures.RefSumUpdate | syzygy/agent/asan/stack_capture_cache.h:143-144 | replacing or adding a record changes the total reference count by the difference of its counts |
| StackCaptures.RefSumRemove | syzygy/agent/asan/stack_capture_cache.h:143-144 | removing a record takes its count off the total reference count |
| StackCaptures.CachePage.constructor | syzygy/agent/asan/stack_capture_cache.h:190-193 | a new page links to the given page and has no byte in use |
| StackCaptures.CachePage.GetNextStackCapture | syzygy/agent/asan/stack_capture_cache.h:197-201 | None exactly when the data left is too small; otherwise the capture starts at the old `bytes_used` and `bytes_used` grows by its size; `bytes_used <= kDataSize` is kept |
| StackCaptures.CachePage.ReleaseStackCapture | syzygy/agent/asan/stack_capture_cache.h:203-206 | releasing the most recent capture moves `bytes_used` back to its offset; any other release leaves the page unchanged |
| StackCaptures.AllocateThenRelease | syzygy/agent/asan/stack_capture_cache.h:197-206 | handing out a capture and releasing it at once restores `bytes_used` |
| StackCaptures.SlotsIdentifyKeys | syzygy/agent/asan/stack_capture_cache.h:174-175 | two cached stacks share a record exactly when they are the same stack |
| StackCaptures.InsertKeepsInvariants | syzygy/agent/asan/stack_capture_cache.h:174-175 | caching a new capture that overlaps none keeps the records disjoint and sized |
| StackCaptures.UpdateKeepsInvariants | syzygy/agent/asan/stack_capture_cache.h:174-175 | changing a count within the saturation bound keeps the records disjoint and sized |
| StackCaptures.RemoveKeepsInvariants | syzygy/agent/asan/stack_capture_cache.h:174-175 | dropping a record keeps the records disjoint and sized |
| StackCaptures.StackCaptureCache.constructor | syzygy/agent/asan/stack_capture_cache.h:170-182 | a new cache has one empty page, no stack and zero counters, and keeps its invariant |
| StackCaptures.StackCaptureCache.SetMaxNumFrames | syzygy/agent/asan/stack_capture_cache.h:61-69 | the frame limit becomes the given value and the invariant holds |
| StackCaptures.StackCaptureCache.AddPage | syzygy/agent/asan/stack_capture_cache.h:177-179 | a page not yet in the cache and with no byte in use becomes the current page and joins the cache's pages, and one page's bytes are added to the total, keeping the cache invariant |
| StackCaptures.StackCaptureCache.AllocateOnCurrentPage | syzygy/agent/asan/stack_capture_cache.h:177-179 | the current page's allocation, with the page allocator's outcome, keeping the cache invariant |
| StackCaptures.StackCaptureCache.GetStackCapture | syzygy/agent/asan/stack_capture_cache.h:177-179 | the room is the next bytes of the current page, at its old `bytes_used`; or, only when fewer bytes are left there, offset 0 of a fresh page linked in front, which joins the pages and adds one page to `size`, the full page left as it was; the room overlaps no cached capture |
| StackCaptures.StackCaptureCache.AddReference | syzygy/agent/asan/stack_capture_cache.h:89-101 | a save of a cached stack returns its record and adds one reference, saturating at the bound |
| StackCaptures.StackCaptureCache.Insert | syzygy/agent/asan/stack_capture_cache.h:89-101 | a save of a new stack caches one new record with one reference, placed where `GetStackCapture` takes room (the current page's old `bytes_used`, or offset 0 of a new page), overlapping no other, and counts one more allocation |
| StackCaptures.StackCaptureCache.AddEntry | syzygy/agent/asan/stack_capture_cache.h:174-175 | a capture placed in the used bytes of a page and overlapping no cached one joins the known set under its stack, with one more allocation counted, keeping the cache invariant |
| StackCaptures.StackCaptureCache.SaveStackTrace | syzygy/agent/asan/stack_capture_cache.h:89-100 | the truncated frames are saved: a cached equal stack yields its record with one more reference and leaves every page, `bytes_used` and `size` as they were; otherwise a new record with one reference, at the current page's old `bytes_used` or at offset 0 of a new page linked in front of the full one; every save counts as requested, only new ones as allocated |
| StackCaptures.StackCaptureCache.SaveCached | syzygy/agent/asan/stack_capture_cache.h:89-101 | a save of a stack already cached has the outcome `SaveStackTrace` promises for a cached stack |
| StackCaptures.StackCaptureCache.SaveNew | syzygy/agent/asan/stack_capture_cache.h:89-101 | a save of a stack not yet cached has the outcome `SaveStackTrace` promises for a new stack |
| StackCaptures.StackCaptureCache.SaveStackTraceCapture | syzygy/agent/asan/stack_capture_cache.h:89-101 | saving an initialised capture has the same outcome as saving its frames |
| StackCaptures.StackCaptureCache.DropReference | syzygy/agent/asan/stack_capture_cache.h:103-106 | one reference fewer on a record that stays cached |
| StackCaptures.StackCaptureCache.Reclaim | syzygy/agent/asan/stack_capture_cache.h:203-206 | a record losing its last reference while it is the current page's last allocation is removed, and its bytes go back to the page |
| StackCaptures.StackCaptureCache.ReleaseStackTrace | syzygy/agent/asan/stack_capture_cache.h:103-106 | a saturated record never changes; any other one loses a reference, and is reclaimed if that was its last and it is the most recent allocation, otherwise it stays cached |
| StackCaptures.StackCaptureCache.GetStatisticsUnlocked | syzygy/agent/asan/stack_capture_cache.h:118-149 | the snapshot gives the cached, saturated and unreferenced counts of the known set, the page bytes and the counters; `cached <= allocated <= requested` |
| StackCaptures.SaveSameStackTwice | syzygy/agent/asan/stack_capture_cache.h:89-101 | saving the same new stack twice returns one record that then holds two references |
| StackCaptures.ReleaseThenSaveReusesSlot | syzygy/agent/asan/stack_capture_cache.h:103-106 | saving a new stack, releasing it and saving another new stack on a page with room gives both the same record, at the page's old `bytes_used`, with no new page |
| BasicBlockSubGraphs.BasicBlock.constructor | syzygy/block_graph/basic_block_subgraph_unittest.cc:58-59 | a new basic block has the given name, type, offset and size, and no instruction or successor |
| BasicBlockSubGraphs.BasicBlock.AppendInstruction | syzygy/block_graph/basic_block_subgraph_unittest.cc:235-237 | the instruction is appended and the instructions' total size grows by its size |
| BasicBlockSubGraphs.BasicBlock.AppendSuccessor | syzygy/block_graph/basic_block_subgraph_unittest.cc:238-239 | the successor is appended |
| BasicBlockSubGraphs.InstructionsSizeAppend | syzygy/block_graph/basic_block_subgraph_unittest.cc:235-250 | instruction sizes add up over concatenation |
| BasicBlockSubGraphs.OrderMaxSizeAppend | syzygy/block_graph/basic_block_subgraph_unittest.cc:243-250 | a description's maximal size is additive over its ordering |
| BasicBlockSubGraphs.OrderMaxSizeOfThree | syzygy/block_graph/basic_block_subgraph_unittest.cc:243-250 | the maximal size of three blocks is the sum of theirs |
| BasicBlockSubGraphs.OrderMaxSizeBounds | syzygy/block_graph/basic_block_subgraph_unittest.cc:243-250 | no block of a description contributes more than the whole |
| BasicBlockSubGraphs.BlockDescription.constructor | syzygy/block_graph/basic_block_subgraph_unittest.cc:97-98 | a new description lays out no basic block |
| BasicBlockSubGraphs.BlockDescription.AppendBasicBlock | syzygy/block_graph/basic_block_subgraph_unittest.cc:101-118 | the basic block is appended to the ordering |
| BasicBlockSubGraphs.BlockDescription.GetMaxSize | syzygy/block_graph/basic_block_subgraph_unittest.cc:219-250 | the sum over the ordering of each block's maximal size: a code block's instruction sizes plus one maximal instruction per successor, another block's size; it bounds every block's part |
| BasicBlockSubGraphs.TwoDescriptions | syzygy/block_graph/basic_block_subgraph_unittest.cc:96-119 | two descriptions meet the uniqueness rule exactly when their orderings share no block |
| BasicBlockSubGraphs.MapsToAtMostOneCorrect | syzygy/block_graph/basic_block_subgraph_unittest.cc:96-119 | the scan with a set of seen blocks holds exactly when no block is seen before or laid out by two descriptions |
| BasicBlockSubGraphs.BasicBlockSubGraph.constructor | syzygy/block_graph/basic_block_subgraph_unittest.cc:52-55 | a new subgraph holds no basic block and no description |
| BasicBlockSubGraphs.BasicBlockSubGraph.AddBasicBlock | syzygy/block_graph/basic_block_subgraph_unittest.cc:52-74 | null exactly when the block has an offset in the original block and its half-open range meets an added one's; otherwise a fresh block, distinct from every earlier one, is added; the added ranges stay disjoint |
| BasicBlockSubGraphs.BasicBlockSubGraph.PushBlockDescription | syzygy/block_graph/basic_block_subgraph_unittest.cc:96-107 | a fresh, empty description is appended and returned |
| BasicBlockSubGraphs.BasicBlockSubGraph.MapsBasicBlocksToAtMostOneDescription | syzygy/block_graph/basic_block_subgraph_unittest.cc:96-119 | true exactly when no basic block appears in the orderings of two different descriptions |
| BasicBlockSubGraphs.AddBasicBlockScenario | syzygy/block_graph/basic_block_subgraph_unittest.cc:52-74 | [0,32) is added, [16,48) is refused, [32,64) is added, and the two added blocks differ |
| BasicBlockSubGraphs.NewSubGraphOfThree | syzygy/block_graph/basic_block_subgraph_unittest.cc:81-94 | three blocks with offset -1 and size 0 are all added, and are distinct |
| BasicBlockSubGraphs.MapsBasicBlocksScenario | syzygy/block_graph/basic_block_subgraph_unittest.cc:96-119 | one block per description holds, a second block in one description holds, one block in two descriptions fails |
| BasicBlockSubGraphs.NewSizeBlocks | syzygy/block_graph/basic_block_subgraph_unittest.cc:219-231 | the code, data and padding blocks, with offset -1, are all added to a new subgraph, which then holds three blocks |
| BasicBlockSubGraphs.FillCodeBlock | syzygy/block_graph/basic_block_subgraph_unittest.cc:233-239 | the code block receives 9 bytes of instructions and two successors |
| BasicBlockSubGraphs.GetMaxSizeScenario | syzygy/block_graph/basic_block_subgraph_unittest.cc:219-250 | the description's maximal size is 32 + 16 + 9 + 2 maximal instructions |

## Left out

- Text rendering of the shadow (`AppendShadowMemoryText`, `AppendShadowArrayText`, `AppendShadowByteText`): it is report formatting.
- `SetUp`, `TearDown` and `Reset` of the real 2 GiB shadow: these reserve and release process memory. The modelled shadow has a parameterised size, and starts all 0x00.
- Block-geometry decoding (`PoisonAllocatedBlock`, `BlockInfoFromShadow`, `GetAllocSize`, `FindBlockBeginning`, `AsanPointerToBlockHeader`): these depend on the block layout and the header bit encoding, which block.h and shadow.cc define. Those files are not part of this model. The header's comments also disagree about nested blocks.
- `kShadowRatioLog` and `kShadowRatio` come from a file that is not part of this model. They are taken as 3 and 8.
- The shadow model has no width limit: addresses and sizes are unbounded naturals, so `size_t` wrap-around is not modelled.
- AsanShadow.Shadow.Poison: when `addr` is not aligned, the header does not say what its first, partly covered granule receives. The contract leaves that granule unconstrained.
- AsanShadow.Shadow.MarkAsFreed: the header sets no alignment precondition. The model marks every granule the range touches, partly covered ones included, and none for an empty range.
- AsanShadow.Shadow.IsAccessible: a byte value the table does not name counts as inaccessible.
- AsanShadow.Shadow.GetNullTerminatedArraySize: a byte outside the modelled shadow counts as an inaccessible one. The element type becomes its width in bytes, and memory becomes a sequence of bytes passed in.
- AsanShadowWalker.ShadowWalker.Next: the walker is specified for a shadow that does not change during a walk.
- `base::Lock` and every thread-safety claim: each cache operation is atomic.
- The logger, `LogStatistics`, `LogStatisticsImpl`, `Init` and the compression-reporting-period globals: these are logging and process-wide configuration.
- The StackCapture type (stack_capture.h) is not part of this model:
  - Its hash is replaced by frame-sequence identity: records are keyed by the truncated frames.
  - Its saturating reference count becomes a count bounded by `max_ref_count`, a constructor parameter.
  - StackCaptures.StackCaptureSize is a stand-in with an 8-byte header and 4 bytes per frame, not the real object size.
  - The default constructor (`StackCaptureCache(AsanLogger*)`) is not modelled, because its default frame count `kMaxNumFrames` is defined there.
  - The frames a capture copies into its page bytes (`data_`) are not modelled; a record keeps only its page, offset and size.
- StackCaptures.StackCaptureCache.SaveStackTrace: it requires a capture of `max_num_frames` frames to fit in an empty page. The header does not say what happens when one does not fit.
- StackCaptures.StackCaptureCache.GetStatisticsUnlocked: the cache's .cc file is not part of this model.
  - `size` is the bytes of the pages allocated.
  - `cached`, `saturated` and `unreferenced` are computed from the known set when the snapshot is taken.
- StackCaptures.StackCaptureCache.ReleaseStackTrace: the .cc file is not part of this model. When a record's count reaches zero, the model removes it only if it is the most recent allocation of the current page. Any other unreferenced record stays cached, pending cleanup.
- StackCaptures.StackCaptureCache.AddPage: the page list is modelled as the set of pages. Each page's link to the previous page is set where `GetStackCapture` allocates it, not kept as an invariant of the whole list.
- The 64-bit statistics counters are unbounded naturals.
- `HasValidSuccessors`: its test is disabled, and the function is not implemented.
- `HasValidReferrers`: it depends on block-graph references and referrers, which are not part of this model.
- `core::AssemblerImpl::kMaxInstructionLength`: it is external, so it is a parameter of `GetMaxSize`.
- The subgraph's implementation file is not part of this model; the subgraph follows the tests.
  - Blocks with offset -1 are never checked for overlap.
  - The overlap test is the interval test on half-open ranges, so an empty block lying strictly inside an added block's range is refused; the tests use no empty block with an offset.
  - BasicBlockSubGraphs.BasicBlockSubGraph.MapsBasicBlocksToAtMostOneDescription compares different descriptions only, so a block listed twice in one ordering is not reported.
- BasicBlockSubGraphs.BasicBlockSubGraph.AddBasicBlock: it requires an offset of at least -1. The data pointer and the block's byte contents are not modelled. A basic block's instructions are reduced to their sizes, and its successors to their number.
