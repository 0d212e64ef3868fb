# Proofs about a CXL-SSD vector search

The search keeps an index image on a slow memory-mapped SSD and answers
nearest-neighbour queries through a DRAM window of pages. These Dafny modules
model the parts whose correctness is not visible from any one function, and
prove what they promise.

* **The page window** (`WindowSpec`, `WindowProofs`, `SpanClock`, `DramWindow`, `SoftPins`): a page cache
  over the read-only image with a two-pass clock, pins, ageing soft pins and a
  reserve/commit/abort fill protocol. The operations are functions on a value;
  the class updates map, frame arrays and arena in place and is proved to do
  exactly that. The invariant says the cache agrees with the image. `SpanClock`
  works out, before a span is promoted, which frames the clock will hand out and
  which pages of the span will survive. `SoftPins` says exactly when a soft pin is
  granted and to whom.
* **The fill pipe** (`PipeSpec`, `PipeProofs`, `FillRelease`, `SoftFill`, `HidePipe`): up to
  32 fills in flight. Worker jobs write bytes and raise flags at every point
  where the owner can be interrupted, while the owner pumps, issues, waits and
  releases. The hops a fill asks for reach the frames of its pages (`SoftFill`).
* **One query** (`BeamSpec`, `BeamProofs`, `Query`): the PQ beam, the
  full-precision rerank, which may fail half way, and the final sort.
* **The schedulers** (`ContBatch`, `Seats`, `Ledger`, `Scheduler`,
  `SchedulerProofs`, `SchedulerEnds`, `DepthOvershoot`, `Attain`, `SharedReads`,
  `SharedScheduler`, `SharedProofs`, `SharedEnds`): the steal, pipe2 and shared continuous-batch loops as state machines. Every access
  to shared state is a step of its own and any thread may take the next step.
  What a thread scores from, its page window or its fills in staging memory, may
  change between any two steps into anything of its kind that keeps its invariant,
  which is what the window and pipe proofs show of every fill, eviction and flush.
  Every answer is right in every interleaving, and from every state of every run
  some run goes on until all queries are answered and all threads have left,
  exactly when the candidates of every query can be read at all (`EndsIff`, for
  either kind of scheduler); `Attain` says what that asks of window, staging memory
  and image.
* **Layout tools** (`Relabel`, `Strays`, `Numberer`, `BfsSpec`, `BfsLayout`,
  `BundleSpec`, `BundlePack`, `CodeWalk`, `PqTable`, `BitSet`, `PagePairs`,
  `ExtentPages`, `Placement`, `RemapTool`, `PageIds`): the numberings, the rewriting of graph, vectors and PQ codes, the
  pairing of records on pages, and the reader's address arithmetic. A PQ distance
  is the negated inner product with the decoded row (`DistIsInner`). The main
  result is that a search of the rewritten index, read back through the map, is
  a search of the original.
* **The tier map** (`TierMap`): striping of logical bytes over RAM and SSD by
  floor arithmetic in 64-bit words.
* **Worker queues** (`PromotePipe`, `CopyPool`): bounded slots and a FIFO job
  queue with compaction, as steps of submitters and workers.

Common helpers are in `Common`, `Counting` and `PageMath`.

## Where the code does not keep a promise

Each of these is kept as the code has it, with the exact condition under which
the promise holds and a concrete input for which it does not.

* With every frame pinned or filling the clock returns frame 0 and takes nothing
  (`EvictChoice`); loading then breaks the cache, and only then (`LoadValid`;
  input: `FillingFrameLoaded`).
* Promoting a span can evict the span's own earlier page; `copy_through` then
  makes up a map entry. It keeps the cache intact and returns the image's bytes
  exactly when, of the frames the clock is going to hand out, the span needs none
  twice and none after it found a page of its own there (`CopyThrough`,
  `SpanKeptIff`). A span with no resident page and an idle frame to start with is
  kept exactly when it is one page or fits the frames neither pinned, filling nor
  soft-pinned (`WholeCases`; inputs: one frame, `SpanEvictsItself`; two idle
  frames, both soft-pinned, `SoftSpanEvictsItself`).
* `tick_soft_pins` takes a hop per list entry, not per frame; an eviction leaves
  a stale entry behind (`TickExact`; input: `SoftEntryTwice`).
* Away from the window a stalling `issue` ends exactly when no page is missing or
  some slot is idle: nothing in its loop gives a slot back (`StallEndsIff`). With
  more pages missing than the idle slots hold, `wait_covering` never gets them
  all (`ShortForever`; input for both: `FullPipeStalls`).
* `release_pages` gives back every fill that lists the needed pages, even one
  with other pages still being written; the protocol survives exactly when every
  such fill is complete (`ReleaseExact`; input: `BorrowedPageReleased`).
* The issue depth is tested before it is counted. The most that is ever in flight
  is the depth plus one for every other thread, but no more than there are seats
  or queries (`DepthMost`), and when every query needs pages, which is when each
  entry has a code (`PagesNeededIff`), some run gets there (`DepthReached`). So
  some run exceeds the depth exactly when there are two threads or more and both
  seats and queries outnumber the depth (`ExceedsIff`); at the default depth that
  takes two seats a thread (`DefaultDepthExceeded`; settings: `ThreeAtDepthTwo`
  exceeds its depth, `FourKeepToFour` keeps to it).
* A worker of the shared window reads through a pointer after the lock is
  dropped. The bytes are the image's, whatever the image, exactly when the frame
  still holds the page (`PointerRightIff`). An answer is always a k-prefix by the
  scores its rank read (`SharedInvariance`), so it is the serial one when the
  frames held on through that rank (`SharedAnswer`; what is read otherwise:
  `OtherPageRead`; input: `RepointedReads`).
* A neighbour outside the graph is rewritten to node 0. The renumbered graph
  reaches, and a search with room for every node finds, the same nodes exactly
  when no reachable row names a stray or the node that becomes 0 is reachable
  anyway (`ReachKeptIff`, `FullSearchKeptIff`). For every width and limit the
  searches agree entry by entry when no reachable row names a stray or the entry
  becomes 0 (`RelabelledSearch`; input: `StrayNeighbourChangesSearch`).
* The star-pack tool's entry list equals a walk exactly when enough nodes are
  reachable (`ShortcutExact`; input: `ShortcutListsUnreached`).
* The bundle tool drops a parent's count once per mention. After a block the
  counts are the numbers of free neighbours exactly when every row that names a
  node placed twice has none left (`ExactAfter`), and through every run for every
  hot set exactly when a row that names a node twice holds all neighbours of
  every row naming that node (`ExactIffContained`; input: `RepeatMiscounts`).
* The in-place permutation of PQ codes succeeds exactly for permutations, refuses
  exactly when a walk leaves the range before one fails to come back, and
  otherwise goes on for ever (`LoopOutcome`; inputs: `RefusedAtOnce`,
  `LedIntoCycle`).
* Extent mode keeps the slot map a bijection exactly for full pages or an
  unmoved last page (`BijectiveIffLastStays`; input: `HalfPageMoved`); exactly
  then the reader accepts the map and reads every record back (`ExtentAndLoad`).
* `for_ids_touching_pages` lists slots, not ids, in the disk layout. It is right
  for every range of pages exactly when record `id` and record `SlotOf(id)` lie on
  the same pages for every id (`TouchingAreIds`), which for two records a page is
  `SlotOf(id) / 2 == id / 2` (`HalfPageRecords`; input: `TouchingMissesMoved`).
* `for_ids_contained_in_page` skips a vector whose padding leaves the page
  (`IdsOfVectors`): all vectors inside are listed exactly when the last that could
  end there keeps its padding there too, or is vector 0 or outside the page
  (`AllListedIff`; input: `PaddedVectorSkipped`).
* `load_id_slot_map` overwrites one direction of the map before it refuses a file
  for its numbers; the two directions then still fit only for a single record
  (`LoadSlotMap`; input: `RefusedMapBreaks`).
* The tier map is a bijection exactly when RAM is whole stripes, the logical size
  is RAM plus SSD, and the last product fits a word (`BijectiveIff`; inputs:
  `PartStripeOverruns`, `OverflowOverruns`).
* Freeing a promote slot that is still queued leaves its number in the queue; the
  pipeline stays consistent exactly otherwise (`Release`, `ReleaseHanded`; input:
  `QueuedSlotFreed`).
* A page copy submitted after stopping has begun is in good hands exactly when
  some worker has not left yet (`Push`; input: `SubmittedTooLate`).

## Model

| member | source | states |
|---|---|---|
| WindowProofs.EvictChoice | serving/dram_window.hpp:164-192 | The clock never hands out a pinned or filling frame while an idle one exists, takes a soft-pinned one only when every idle frame is soft-pinned, and in both cases stops at the first such frame in clock order; with no idle frame it names frame 0 and takes nothing |
| WindowProofs.EvictValid | serving/dram_window.hpp:164-192 | Eviction keeps the window invariant: the map is the inverse of the keys of the frames not being filled, resident frames equal the image, counters are page size times flagged frames and within their caps |
| WindowProofs.LoadValid | serving/dram_window.hpp:254-266 | Filling an allocated frame keeps the invariant exactly when some frame was idle |
| WindowProofs.FillingFrameLoaded | serving/dram_window.hpp:254-266 | Concrete input: with the one frame still arriving, a loaded page is mapped to a frame being filled |
| WindowProofs.PromoteValid | serving/dram_window.hpp:241-281 | Promotion keeps the invariant exactly when the page was resident or a frame idle; then the page has a frame with the image's bytes, and a pin is refused only for lack of pin budget |
| WindowProofs.PromoteExact | serving/dram_window.hpp:241-281 | What promoting changes: a pin is taken exactly when one is asked for, the page has none and the budget allows it; a page not resident takes a frame with the image's bytes and pushes out that frame's page; nothing else moves |
| WindowProofs.PromotePagesValid | serving/dram_window.hpp:367-372 | Promoting a whole span without pinning keeps the invariant while one frame is idle |
| WindowProofs.PinPagesValid | serving/dram_window.hpp:297-307 | Pinning a span while pin cap plus the fill bound stays below the window keeps the invariant and pins every page the budget allows |
| WindowProofs.SpanEvictsItself | serving/dram_window.hpp:367-386 | Concrete input: a two-page span in a one-frame window pushes out its own first page |
| SpanClock.EvictTakes | serving/dram_window.hpp:164-192 | The frames the clock will hand out can be listed beforehand: an eviction takes the first, and once that frame is unguarded it goes to the end of the list |
| SpanClock.HandOutSize | serving/dram_window.hpp:164-192 | That list has every frame neither pinned, filling nor soft-pinned, once; with none of these, the first idle frame alone; and nothing with no idle frame |
| SpanClock.SpanKeptIff | serving/dram_window.hpp:367-386 | Promoting a span page by page keeps the window consistent with every page of it resident exactly when, of the frames that list names, the span needs none twice and none after it found a page of its own there; no idle frame is asked for |
| SpanClock.WholeCases | serving/dram_window.hpp:367-386 | A resident span meets that condition, and one page does while a frame is idle; a span of several pages, none of them resident, meets it exactly when it fits the frames neither pinned, filling nor soft-pinned |
| SpanClock.SoftSpanEvictsItself | serving/dram_window.hpp:164-192 | Concrete input: two idle frames, both soft-pinned, and a two-page span none of which is resident: the second page takes the frame of the first |
| WindowProofs.ReserveValid | serving/dram_window.hpp:199-215 | A reservation refuses a resident page; otherwise it keeps the invariant and gives an idle frame exactly when one exists, and touches no resident page's bytes |
| WindowProofs.CommitValid | serving/dram_window.hpp:217-232 | Committing keeps the invariant whenever the frame holds its page, or is not being filled |
| WindowProofs.AbortValid | serving/dram_window.hpp:234-239 | Aborting frees the frame of a fill in flight and leaves every other frame and every resident page alone |
| WindowProofs.InstallValid | serving/dram_window.hpp:467-500 | Installing a page with the image's bytes keeps the invariant exactly when the page was resident or a frame idle |
| WindowProofs.FlushValid | serving/dram_window.hpp:79-94 | After a flush exactly the pinned pages are resident, with their bytes and frames; fills in flight go on, every other frame is empty and without hops, the list to age is empty and the hand at 0 |
| WindowProofs.RoomyHasIdle | serving/dram_window.hpp:164-192 | Pin cap plus fill bound below the window's bytes always leaves an idle frame |
| WindowProofs.TickExact | serving/dram_window.hpp:146-162 | A tick takes one hop from a frame for every time it is listed; so a soft-pinned frame loses exactly one hop just when it is listed once, or several times with one hop left |
| WindowProofs.SoftEntryTwice | serving/dram_window.hpp:117-128 | Concrete run: eviction of a soft-pinned page leaves its list entry behind, and the frame's next soft pin ages twice as fast |
| SoftPins.SoftPinExact | serving/dram_window.hpp:117-128 | A soft pin asked for an unpinned frame: one with hops left keeps the larger number, one with none gets the hops asked exactly when one more page fits under the cap, by the count of soft-pinned frames; no other frame changes |
| SoftPins.InstallAsks | serving/dram_window.hpp:469-491 | An install asks for the resident page's frame, or for the frame it loaded and then, when neighbours are wanted, for those of the resident pages on either side, in that order |
| SoftPins.BesideExact | serving/dram_window.hpp:484-491 | The frames asked on either side are those of exactly the resident pages one page before and one page after |
| SoftPins.InstallGuards | serving/dram_window.hpp:469-491 | An installed page ends with at least the hops asked, or pinned, unless the soft budget was spent when its turn came; every other page keeps its frame and no fewer hops |
| SoftPins.CommitGuards | serving/dram_window.hpp:217-232 | A committed page that had not arrived some other way ends with at least the hops asked, or pinned, unless the soft budget was spent |
| SoftPins.InstallAllRoom | serving/dram_window.hpp:507-512 | With room in the soft budget for a batch, every page it brings in ends with at least the hops asked, or pinned, and every other page with no fewer than before |
| DramWindows.MadeUpBreaks | serving/dram_window.hpp:374-385 | One default-inserted map entry is enough to break the inverse between map and keys |
| DramWindows.InstallStep | serving/dram_window.hpp:467-500 | Installing brings in its page and no other, and touches no pin and no frame being filled |
| DramWindows.SpanPromoted | serving/dram_window.hpp:367-386 | A promoted span is consistent and resident exactly when it was whole for the frames the clock was going to hand out; otherwise a page is missing, or an entry of the map is stuck for good |
| DramWindows.DramWindow.constructor | serving/dram_window.hpp:47-77 | A fresh window satisfies the invariant |
| DramWindows.DramWindow.EvictFrame | serving/dram_window.hpp:164-192 | The two-pass loop over the frame arrays does what the allocator on values does |
| DramWindows.DramWindow.ReserveFill | serving/dram_window.hpp:199-215 | The in-place reservation is the one on values |
| DramWindows.DramWindow.CommitFill | serving/dram_window.hpp:217-232 | The in-place commit is the one on values |
| DramWindows.DramWindow.AbortFill | serving/dram_window.hpp:234-239 | The in-place abort is the one on values |
| DramWindows.DramWindow.PromotePage | serving/dram_window.hpp:241-281 | The in-place promotion is the one on values |
| DramWindows.DramWindow.Pin | serving/dram_window.hpp:297-307 | The in-place pin of a span, for no length of one page, is the promotion and pin of its pages in order on values |
| DramWindows.DramWindow.InstallFullPage | serving/dram_window.hpp:502-515 | The in-place install is the one on values, whose soft pins SoftPinExact and InstallAsks give |
| DramWindows.DramWindow.InstallFullPages | serving/dram_window.hpp:507-512 | A batch is the pages installed in order, each with the hops asked; no other page comes in |
| DramWindows.DramWindow.TickSoftPins | serving/dram_window.hpp:146-162 | The in-place ageing loop, which compacts its own list, is the one on values; it keeps the invariant and drops no page |
| DramWindows.DramWindow.Flush | serving/dram_window.hpp:79-94 | The in-place flush is the one on values |
| DramWindows.DramWindow.IsResident | serving/dram_window.hpp:309-321 | True exactly when every page the span touches is resident; an empty span counts as one byte |
| DramWindows.DramWindow.TryCopyResident | serving/dram_window.hpp:337-359 | Succeeds exactly when every overlapped page is resident, then returns the image's bytes for a span of any length; the window stays as it was |
| DramWindows.DramWindow.TryPtrResident | serving/dram_window.hpp:323-335 | Gives a pointer exactly for a resident span inside one page, and the bytes there are the image's |
| DramWindows.DramWindow.CopyThrough | serving/dram_window.hpp:367-399 | Keeps the invariant exactly when the span is whole for the frames the clock is going to hand out, a condition on the window before the call, and then returns the image's bytes |
| PipeProofs.DeliverKeeps | serving/hide_fill.hpp:293-330 | Writing a destination whose flag is down disturbs no flag, no ready page, no resident page |
| PipeProofs.EndReadKeeps | serving/hide_fill.hpp:293-330 | When a job's read ends all its destinations hold their pages |
| PipeProofs.SetFlagKeeps | serving/hide_fill.hpp:293-330 | Raising a flag after the bytes keeps: consumed implies ready, ready implies the destination equals the image |
| PipeProofs.FlagWork | serving/hide_fill.hpp:293-330 | Every flag raised strictly reduces the outstanding work |
| PipeProofs.ReadWork | serving/hide_fill.hpp:293-330 | Every finished read strictly reduces the outstanding work |
| PipeProofs.WindowMoveKeeps | serving/dram_window.hpp:79-94 | Any window change that leaves frames being filled alone leaves the fill protocol alone |
| PipeProofs.FlushKeeps | serving/dram_window.hpp:79-94 | A flush between fills does not break them |
| PipeProofs.MarkKeeps | serving/hide_fill.hpp:144-154 | Noting a ready page raises the consumed count by one and keeps the protocol |
| PipeProofs.CommitEntryKeeps | serving/hide_fill.hpp:155-166 | Committing a ready page makes it resident, frees its frame from the fill and counts it once |
| PipeProofs.ClearSlotKeeps | serving/hide_fill.hpp:128-142 | A slot whose pages are all ready has no job left writing to it and may be reused |
| PipeProofs.FillsBound | serving/hide_fill.hpp:343-345 | One pipe never has more than 32 x 1024 frames reserved |
| PipeProofs.PipeHasIdle | serving/dram_window.hpp:164-192 | With pin cap plus the pipe's bound below the window, the allocator always finds an idle frame |
| PipeProofs.ChunksCover | serving/hide_fill.hpp:302-330 | The jobs of a fill split its pages into runs of at most 32 that overlap nowhere and leave none out |
| PipeProofs.StartStagedKeeps | serving/hide_fill.hpp:261-330 | Starting a staged or prefetch-only fill in an idle slot keeps the protocol |
| PipeProofs.ReserveAllValid | serving/hide_fill.hpp:272-291 | Reserving a wave of frames keeps the window invariant within the bound, one new frame per page |
| PipeProofs.ReserveAllTakes | serving/hide_fill.hpp:272-291 | A wave of pages none of which is resident gets a frame for every page, and makes none resident |
| PipeProofs.StartDirectKeeps | serving/hide_fill.hpp:272-330 | Starting a fill straight into window frames keeps the protocol |
| HidePipes.UnraisedHasJob | serving/hide_fill.hpp:293-330 | A page in flight whose flag is down has a job that will raise it |
| HidePipes.CoveredFillReady | serving/hide_fill.hpp:386-407 | A fill all of whose pages are needed is complete once every needed page has its flag up |
| HidePipes.PumpedNoDup | serving/hide_fill.hpp:491-498 | Pumping never puts one page in two active slots |
| HidePipes.HidePipe.ReadJob | serving/hide_fill.hpp:293-330 | A worker's read step, interleaved anywhere, keeps the protocol and touches only what its owner is not reading |
| HidePipes.HidePipe.FlagPage | serving/hide_fill.hpp:293-330 | A worker's flag step, interleaved anywhere, keeps the protocol |
| HidePipes.HidePipe.PumpDirect | serving/hide_fill.hpp:155-166 | Every page ready at its turn is committed; no resident page is lost; with room in the soft budget a page brought in has at least the hops its fill asked for, or is pinned |
| HidePipes.HidePipe.PumpStaged | serving/hide_fill.hpp:167-184 | Every page ready at its turn is installed, in batches of at most 256; nothing but fetched pages becomes resident; with room in the soft budget those have at least the hops their fill asked for, or are pinned |
| HidePipes.HidePipe.PumpFlags | serving/hide_fill.hpp:146-154 | Away from the window every page ready at its turn is noted |
| HidePipes.HidePipe.Pump | serving/hide_fill.hpp:491-498 | A page that becomes resident was in flight; in window mode every complete slot is given back, so a slot still active has work left; away from the window none is given back. With room in the soft budget every resident page is guarded no less than before, or for the hops of a fill that listed it |
| HidePipes.HidePipe.HideWait | serving/hide_fill.hpp:186-203 | Ends, with the slot given back in window mode and complete otherwise |
| HidePipes.HidePipe.CollectMiss | serving/hide_fill.hpp:556-574 | Exactly the asked pages neither resident nor in flight, once each |
| HidePipes.HidePipe.HideIssue | serving/hide_fill.hpp:242-340 | Every asked page, or in window mode every one not resident, is in the new fill, whether it goes straight into frames or through staging; the fill's slot has the hops asked for, the next token, no flag up and nothing noted |
| HidePipes.HidePipe.Issue | serving/hide_fill.hpp:556-615 | A token names a slot holding asked pages with the hops asked for; no page is ever in two active slots; when a slot is idle, or with stalling, the asked pages are then in flight (or resident, in window mode), up to 1024 a call; away from the window each token takes one idle slot |
| HidePipes.StallEndsIff | serving/hide_fill.hpp:582-596 | Away from the window the loop that waits for a slot ends exactly when a slot was idle before it: no turn of it gives one back |
| HidePipes.HidePipe.StallStep | serving/hide_fill.hpp:584-596 | The loop's body, a pump and a yield, is one of those turns |
| HidePipes.HidePipe.PageReady | serving/hide_fill.hpp:386-395 | True exactly when some active slot has the page with its flag up |
| HidePipes.HidePipe.CoversAll | serving/hide_fill.hpp:397-407 | True exactly when every page is resident (window) or ready (bounce) |
| HidePipes.HidePipe.WaitCovering | serving/hide_fill.hpp:500-548 | Away from the window, with room in the idle slots for the pages no slot has: ends with every needed page's flag up at once, one new token per slot taken; orphans are reissued, and the nothing-in-flight exit is not taken with pages outstanding. In window mode, with fills in place: a needed page is resident at the end exactly when it was resident or still to be handed over at the call |
| HidePipes.ShortForever | serving/hide_fill.hpp:500-548 | With more pages missing than the idle slots hold, no run of the waiting loop ever has them all |
| HidePipes.FullPipeStalls | serving/hide_fill.hpp:582-596 | Concrete state the protocol allows: thirty-two complete fills, none released, and a call for one more page, which never gets a slot |
| HidePipes.HidePipe.ReleaseTok | serving/hide_fill.hpp:460-465 | Clears exactly the slots of that token, away from the window; the protocol survives exactly when their flags are all up |
| HidePipes.HidePipe.ReleasePages | serving/hide_fill.hpp:467-489 | Clears exactly the fills listing every needed page; the protocol survives exactly when all their flags are up |
| HidePipes.OwnFillSafe | serving/search_beam.cpp:1575-1576 | A fill holding only a query's own pages is complete once the query is covered |
| FillRelease.ReleaseExact | serving/hide_fill.hpp:460-489 | Giving fills back keeps the protocol exactly when every one of them is complete |
| FillRelease.BorrowedPageReleased | serving/hide_fill.hpp:467-489 | Concrete state: a covered query gives back a fill in which a job is still writing another page |
| HidePipes.HidePipe.CopyBounce | serving/hide_fill.hpp:435-456 | Copies the image's bytes out of staging memory whenever every page of the span has its flag up |
| BeamProofs.BeamResult | serving/search_beam.cpp:1490-1518 | Candidates are distinct, at most L, and the best by PQ distance of everything seen; in-range neighbours of expanded nodes are seen; without an expansion limit every kept candidate ends up expanded |
| BeamProofs.InsertExact | serving/search_beam.cpp:1461-1472 | A list with room gets the node at its end; a full one replaces the first of the farthest, but only by a node closer than some candidate; a node without a code changes nothing |
| BeamProofs.SeenInOrder | serving/search_beam.cpp:1510-1515 | The neighbours of a row are seen one after another: a row in two parts is the first, then the second |
| Query.PqQuery.constructor | serving/search_beam.cpp:1474-1488 | The entry is seen and scored, nothing is expanded |
| Query.PqQuery.Insert | serving/search_beam.cpp:1461-1472 | The in-place insert is the one on values: append below L, else replace the first worst if strictly closer |
| Query.PqQuery.RunBeam | serving/search_beam.cpp:1490-1518 | The in-place loop ends and computes the beam on values |
| Query.PqQuery.RunSerialBeam | serving/search_beam.cpp:499-509 | The serial search's loop, which tests its two exits the other way round, computes the same beam |
| Query.PqQuery.Rank | serving/search_beam.cpp:1547-1579 | Succeeds exactly when every vector can be read; a failed attempt leaves earlier candidates rescored and the rest as they were; ids never change |
| Query.SortedIsPrefix | serving/search_beam.cpp:1602-1608 | Whatever order a sort leaves ties in, its first k ids are distinct, in order, and nothing closer is left out |
| Query.PqQuery.Finish | serving/search_beam.cpp:1602-1608 | The answer is a k-prefix of the candidates in full-precision order |
| ContBatch.FindSeat | serving/cont_batch.hpp:43-109 | Finds the first seat of a kind |
| ContBatch.DecideSteal | serving/cont_batch.hpp:43-80 | Issue the first held seat when there is room, else fill the first empty one while queries are left, else rank the first covered one, else pump, else leave |
| ContBatch.DecidePipe2 | serving/cont_batch.hpp:82-109 | Fill first, then rank the first covered seat, then wait for the first parked one, else leave |
| ContBatch.StealLeaves | serving/cont_batch.hpp:43-80 | Leaves exactly when nothing is parked or rankable and no empty seat goes with a query left; an uncovered Ready seat does not stop it |
| ContBatch.Pipe2Leaves | serving/cont_batch.hpp:82-109 | Leaves exactly when nothing waits or is ready and no empty seat goes with a query left |
| ContBatch.Pick | serving/search_beam.cpp:2565-2578 | From any start, the first Ready seat round from it if there is one, else the first covered waiting one, none only if there is neither |
| ContBatch.EffectiveIssueQd | serving/cont_batch.hpp:36-39 | The depth given, or with none the number of threads, at least one; so the first issue is admitted |
| ContBatch.Unique | serving/cont_batch.hpp:111-122 | First mentions in order: distinct, and the same pages |
| ContBatch.UniqueInOrder | serving/cont_batch.hpp:111-122 | A page listed before another was mentioned before the other's first mention |
| Seats.ReadIsImage | serving/dram_window.hpp:337-359 | A window that keeps its invariant yields the image's bytes for any resident span |
| Seats.StagedIsImage | serving/hide_fill.hpp:409-456 | Staging memory gives out pages in flight whether ready or not; once the pages issued for a vector have their flags up, what is copied is the image's |
| Seats.SourceIsImage | serving/hide_fill.hpp:421-456 | Whatever a thread scores from, window, staging memory or the image itself: a read that comes through while the vector's pages cover yields the image's bytes |
| Seats.RankKeeps | serving/search_beam.cpp:1547-1579 | A rank attempt never changes which candidates a seat holds; one that succeeds gives each its full-precision score |
| Seats.FinishAnswers | serving/search_beam.cpp:1602-1608 | Sorting a scored seat gives a k-prefix of the serial beam's candidates |
| Seats.NeedEmpty | serving/search_beam.cpp:1520-1543 | A query needs no page exactly when it has no candidate |
| Seats.NeedExact | serving/search_beam.cpp:1520-1543 | The pages needed are those of the candidates' vectors and no others |
| Ledger.TakeOne | serving/search_beam.cpp:2737-2738 | Taking from a lane claims that lane's next query and no other, for one shared counter and for a fixed split alike |
| Ledger.ExactlyOnce | serving/search_beam.cpp:2787-2798 | A query is unclaimed, on one seat, or answered, never two of these |
| Ledger.BookClaim | serving/search_beam.cpp:2787-2798 | Claiming for an empty seat keeps that partition |
| Ledger.BookFinish | serving/search_beam.cpp:2722-2741 | Answering and emptying the seat keeps that partition |
| SchedulerProofs.StepKeeps | serving/search_beam.cpp:2768-2871 | Each step of a thread, and each change of its window or staged fills that keeps their invariant and kind, keeps the schedulers' invariant |
| SchedulerProofs.SchedulingInvariance | serving/search_beam.cpp:2761-2871 | In every interleaving, scoring from page windows, staged fills or the image, with any refused issues, failed rank attempts, evictions and flushes, a finished query's answer is a k-prefix in full-precision order of exactly the serial beam's candidates |
| SchedulerProofs.EveryQueryOnce | serving/search_beam.cpp:2722-2871 | At every point of every run each query is unclaimed, on exactly one seat, or answered |
| SchedulerProofs.DepthBound | serving/search_beam.cpp:2742-2760 | The issue counter is the seats holding a place plus the threads between counting and holding, and never exceeds depth + threads - 1 |
| DepthOvershoot.DepthReached | serving/search_beam.cpp:2742-2747 | With pages to fetch for every query, some run has that many in flight: the depth and one for every other thread, or as many as there are seats or queries |
| DepthOvershoot.DepthMost | serving/search_beam.cpp:2742-2760 | No run has more in flight than that |
| DepthOvershoot.ExceedsIff | serving/search_beam.cpp:2742-2747 | Some run exceeds the depth exactly with two threads or more, and more seats and more queries than the depth |
| DepthOvershoot.DefaultDepthExceeded | serving/cont_batch.hpp:36-39 | At the default depth, the number of threads, some run exceeds it exactly with two threads or more, two seats a thread or more, and more queries than threads |
| DepthOvershoot.PagesNeededIff | serving/search_beam.cpp:1520-1543 | Every query has pages to fetch exactly when each one's entry has a PQ code |
| DepthOvershoot.ThreeAtDepthTwo | serving/search_beam.cpp:2742-2747 | Concrete run: two threads with two seats each, a depth of two and three queries over one node have three in flight at once |
| DepthOvershoot.FourKeepToFour | serving/search_beam.cpp:2742-2760 | Concrete setting: two threads with two seats each keep to a depth of four |
| SchedulerProofs.ThreadLeft | serving/search_beam.cpp:2768-2781 | A thread leaves only with all its seats empty and no query left for it |
| SchedulerProofs.AllLeft | serving/search_beam.cpp:2896-2903 | When every thread has left, exactly the queries 0..nq have answers and the issue counter is zero |
| SchedulerProofs.NeverStuck | serving/search_beam.cpp:2735-2760 | The counter is positive whenever a held place is given back, and a thread that has not left always has a next step |
| SchedulerEnds.EndsIff | serving/search_beam.cpp:2761-2903 | From every state of every run, some run goes on until every thread has left, exactly when every query's candidates can be read from some source of the kind the threads score from |
| SchedulerEnds.AnswersHappen | serving/search_beam.cpp:2761-2903 | Where such a run ends every query has its answer, the serial one by full-precision distance |
| Attain.ImageAttains | serving/search_beam.cpp:1547-1579 | From the image itself every query's candidates can be read |
| Attain.WindowAttainsIff | serving/search_beam.cpp:1547-1579 | From a page window they can, all at once, exactly when the pages their vectors touch fit its frames and lie whole in the image |
| Attain.StagedAttainsIff | serving/hide_fill.hpp:421-456 | From staged fills exactly when the pages issued are all that the vectors touch, are whole pages of the image and fit 32 slots of 1024 |
| SharedReads.HeldReadsImage | serving/hide_fill.hpp:421-433 | A read copied under the lock, or through a frame that still holds the page, yields the image's bytes |
| SharedReads.OtherPageRead | serving/hide_fill.hpp:421-433 | Through a frame that has come to hold another page it yields that page's bytes |
| SharedReads.PointerRightIff | serving/dram_window.hpp:323-335 | A pointer followed after the lock is dropped yields the image's bytes, for every image and every content of the other frames, exactly when its frame still holds the page |
| SharedReads.RepointedReads | serving/hide_fill.hpp:421-433 | Concrete windows: a pointer taken for the first page reads the second page's byte once its frame holds that |
| SharedProofs.AdmitKeeps | serving/search_beam.cpp:2547-2564 | Admission keeps the pool's invariant and stops only with no empty seat or no query left |
| SharedProofs.StepKeeps | serving/search_beam.cpp:2591-2625 | Each step of a worker keeps the pool's invariant, whatever its readings of the shared window yield: a ranked seat's candidates carry the scores that were read |
| SharedProofs.OneOwner | serving/search_beam.cpp:2594-2623 | A Busy or Done seat has exactly one worker; no other seat has any |
| SharedProofs.SharedInvariance | serving/search_beam.cpp:2530-2625 | In every interleaving, whatever the readings of the shared window yield, each query is in one place, an answer is a k-prefix of the serial beam's candidates by the scores which the rank that finished it read, and the finished count is the number of answers |
| SharedProofs.ReadInRun | serving/search_beam.cpp:2594-2623 | Those readings are the ones of some rank step of the run |
| SharedProofs.SharedAnswer | serving/search_beam.cpp:2530-2625 | A query gets the serial answer by full-precision distance, whatever the other queries read, when in that rank every pointer was followed while its frame still held the page |
| SharedProofs.CountedMeansDone | serving/search_beam.cpp:2591-2591 | The count reaches nq only when every query is answered and every seat empty |
| SharedProofs.LeftMeansDone | serving/search_beam.cpp:2591-2625 | A worker leaves only then |
| SharedEnds.EndsIff | serving/search_beam.cpp:2530-2625 | From every state of every run, some run goes on until every query is answered and every worker has left, exactly when, with queries to answer, there are workers and seats and every candidate's vector can be read |
| SharedEnds.CanReadIff | serving/hide_fill.hpp:421-433 | A vector can be read from some consistent window exactly when its pages fit the frames and lie whole in the image |
| Relabel.WriteGraph | tools/pack_layout_bundle.cpp:501-513 | New row i is old row newToOld[i] with neighbours renumbered and strays sent to 0 |
| Relabel.WriteRecords | tools/pack_layout_bundle.cpp:491-535 | New record i is old record newToOld[i] |
| Relabel.RelabelledBeam | tools/pack_layout_bundle.cpp:500-535 | The beam on the renumbered index is the renumbered beam: candidates correspond position by position, when the entry lies among nodes whose rows name only each other, or is renumbered 0 |
| Strays.ReachKeptIff | tools/pack_layout_bundle.cpp:501-513 | The renumbered graph reaches from the entry exactly the renumbered nodes the old one did just when no reachable row names a stray, or the node that becomes 0 was reachable |
| Strays.FullSearchKeptIff | tools/pack_layout_bundle.cpp:501-513 | A search with room for every node finds the same nodes on both indexes exactly under that condition |
| Strays.RelabelledSearch | tools/pack_layout_bundle.cpp:500-535 | For every list length and expansion limit the two searches agree entry by entry when no reachable row names a stray, or the entry becomes 0 |
| Relabel.StrayNeighbourChangesSearch | tools/pack_layout_bundle.cpp:509-509 | Concrete graph: one out-of-range neighbour changes what the search returns after renumbering |
| Query.BackIsAnswer | serving/search_beam.cpp:2534-2540 | An answer over renumbered ids, read back through the map, is an answer over the old ids, and the other way round |
| Query.RelabelledAnswer | serving/search_beam.cpp:2376-2379 | End to end: a result answers a query on the renumbered graph, codes and vectors exactly when, read back, it answers it on the originals, when the entry lies among nodes whose rows name only each other or is renumbered 0 |
| Numberers.Numberer.Assign | tools/reorder_layout_bfs.cpp:114-122 | A node gets the next number unless it has one; both arrays stay in step |
| Numberers.Numberer.AssignRest | tools/reorder_layout_bfs.cpp:141-145 | Leftovers are numbered in id order and the two arrays then undo each other |
| Numberers.RestInOrder | tools/reorder_layout_bfs.cpp:141-145 | What is left is added in increasing order of id |
| BfsSpec.BfsIsByDistance | tools/reorder_layout_bfs.cpp:124-140 | The first numbers go to exactly the nodes reachable from the entry, the entry first, in nondecreasing breadth-first distance |
| BfsSpec.BfsInRowOrder | tools/reorder_layout_bfs.cpp:124-140 | Of two nodes walked the earlier is named first: by a node earlier than any that names the other, or before it in the same row |
| BfsSpec.Numbering | tools/reorder_layout_bfs.cpp:112-147 | The whole numbering is a permutation that starts with the walk; the nodes not walked follow in id order |
| BfsLayout.StarPack | tools/reorder_layout_bfs.cpp:109-147 | The queue-driven loop over the two arrays gives that numbering, from the entry, or from node 0 for an entry outside the graph |
| BfsLayout.PageBin | tools/pack_layout_pagebin.cpp:110-150 | The other tool, which numbers the entry late and marks queued nodes apart, gives the same numbering from the same start |
| BfsLayout.EntryList | tools/reorder_layout_bfs.cpp:278-297 | The list walked on the written graph is the first limit nodes of the breadth-first order |
| BfsLayout.WalkMoves | tools/pack_layout_bundle.cpp:543-560 | Walking the renumbered graph meets the same nodes in the same order when no reachable row names a stray, or the entry becomes 0 |
| BfsLayout.StarPackWalk | tools/reorder_layout_bfs.cpp:273-276 | On the graph star-pack writes, the walk from the entry is 0, 1, 2, ... over the reachable nodes |
| BfsLayout.ShortcutExact | tools/reorder_layout_bfs.cpp:273-277 | The list 0..limit written without walking is the walked list exactly when at least limit nodes are reachable |
| BfsLayout.ShortcutListsUnreached | tools/reorder_layout_bfs.cpp:273-277 | Concrete graph: the written list has a node no walk from the entry meets |
| BundlePack.InvertEdges | tools/pack_layout_bundle.cpp:216-233 | inadj[v] mentions w as often as row w mentions v |
| BundlePack.BucketQueue.PopBest | tools/pack_layout_bundle.cpp:250-263 | Stale entries are dropped; of the nodes with a positive count a hot one comes first, on each side one with the largest count, and of the entries filed under that count the last that is not stale; none is left when it returns nothing |
| BundlePack.BucketQueue.Down | tools/pack_layout_bundle.cpp:288-295 | A decrement files the node last under its new count, and nothing else, and keeps every bucket above the cursor empty |
| BundleSpec.FreeJoin | tools/pack_layout_bundle.cpp:272-276 | A block lists the free neighbours in the order of the row: a row in two parts gives those of the first, then those of the second |
| BundleSpec.AddAllJoin | tools/pack_layout_bundle.cpp:281-281 | A block is numbered in that order: two lists end to end are numbered one after the other |
| BundleSpec.ExactAfter | tools/pack_layout_bundle.cpp:285-297 | Placing free nodes and dropping each parent once per mention keeps every count equal to the number of free neighbours exactly when every row that names a node placed twice has no free neighbour left |
| BundleSpec.ExactIffTidy | tools/pack_layout_bundle.cpp:265-301 | Over a run of blocks the counts are right after every block exactly when every block of the run meets that condition |
| BundleSpec.ExactIffContained | tools/pack_layout_bundle.cpp:265-301 | They are right in every run for every hot set exactly when a row that names a node twice holds all neighbours of every row naming that node |
| BundleSpec.BlocksFilled | tools/pack_layout_bundle.cpp:272-280 | Whatever rows repeat, the block of a node taken from the queue is never empty, so the guard against that is never met |
| BundleSpec.RepeatMiscounts | tools/pack_layout_bundle.cpp:269-297 | Concrete graph: a row naming a node twice makes a parent lose two for one placed neighbour, so its count is no longer its number of free neighbours |
| BundlePack.Blocks | tools/pack_layout_bundle.cpp:265-301 | The loop ends for all rows; the numbering is a run of blocks, each of a top node by the counts, until no count is left or every node is numbered; with right counts that is the greedy run, which leaves no node with a free neighbour |
| BundlePack.Pack | tools/pack_layout_bundle.cpp:216-306 | Any hot set and rows of at most 32 in-range neighbours give a renumbering: that run of blocks followed by leftovers in id order; it is the greedy one when every row that repeats a node is contained as above, rows without repeats included |
| CodeWalks.LoopOutcome | serving/pq_table.hpp:82-101 | For any map the loop succeeds exactly when it is a permutation, refuses exactly when a walk leaves the range and every start before it comes back, and otherwise never ends |
| CodeWalks.AllReturnIffPermutation | serving/pq_table.hpp:82-101 | Every row's walk comes back exactly when the map is a permutation |
| CodeWalks.RefusedAtOnce | serving/pq_table.hpp:82-101 | Concrete map [5, 1, 1]: refused at its first row though two rows share an old one |
| CodeWalks.LedIntoCycle | serving/pq_table.hpp:82-101 | Concrete map [1, 0, 0]: the last row is led into an earlier cycle and the loop never ends |
| PqTables.PqTable.RunCycle | serving/pq_table.hpp:84-100 | One cycle, with one row set aside, puts each of its rows in place and marks it, or stops where the walk leaves the range; it takes the loop's steps |
| PqTables.PqTable.PermuteInPlace | serving/pq_table.hpp:82-101 | For every map on which the loop ends it takes the loop's steps to their end; it succeeds exactly for a permutation and then row i is old row newToOld[i] |
| PqTables.PqTable.LoadCodes | serving/pq_table.hpp:64-103 | Without a map of the right length the codes stay as read; with one they are permuted, or the map is refused |
| PqTables.Dist | serving/pq_table.hpp:124-134 | The loop adds up one entry per chunk, each from that chunk's own table, as DistSplit and OneChunk determine |
| PqTables.DistSplit | serving/pq_table.hpp:124-129 | A row and tables laid on after another row and its tables: the distances add up, each chunk looked up in its own table |
| PqTables.OneChunk | serving/pq_table.hpp:124-129 | A row of one chunk reads the entry its code names |
| PqTables.FillLut | serving/pq_table.hpp:106-116 | The loops fill, for each chunk and centroid, minus the sum of query coordinate times centroid coordinate over the chunk's dimensions |
| PqTables.DistIsInner | serving/pq_table.hpp:106-129 | For tables filled from a query, the distance of a code row is minus the inner product of the query with the vector the row stands for |
| PqTables.PermutedDists | serving/pq_table.hpp:124-134 | Distances read off permuted codes are the old distances permuted |
| BitSets.MarkOne | serving/pq_table.hpp:79-82 | Setting a bit of the packed set adds that index and no other |
| PagePairs.Matching.Pair | tools/remap_diskann_pages.cpp:332-335 | mate stays a partial involution without fixed points |
| PagePairs.PairNeighbours | tools/remap_diskann_pages.cpp:360-380 | In id order every id not used yet takes the first neighbour of its row that is in range, another id and unused; so mates are neighbours and the matching is maximal: no unused id keeps an unused neighbour |
| PagePairs.PairCoexpand | tools/remap_diskann_pages.cpp:340-359 | Row by row the ids not used yet are paired two by two in the order of their first mention; so mates are two neighbours of one node, and no row keeps two of its ids unused |
| PagePairs.OpenInOrder | tools/remap_diskann_pages.cpp:340-359 | That order: an id listed before another is mentioned in the row before the other's first mention |
| PagePairs.PairEdges | tools/remap_diskann_pages.cpp:305-315 | Every edge touches a matched one no later in the weight order; only edges are matched |
| PagePairs.AssignSlots | tools/remap_diskann_pages.cpp:382-399 | Slots form a bijection; mates get slots 2i and 2i + 1, the lower id first and the pairs in the order of their lower ids, and the rest follow in id order |
| PagePairs.MatesShare | tools/remap_diskann_pages.cpp:384-389 | Mates share a page of two records |
| ExtentPages.ExtentMap | tools/remap_diskann_pages.cpp:182-203 | Refused exactly for an out-of-range slot; otherwise pages move by the runs, then in order, and every id follows its page |
| ExtentPages.RunContiguous | tools/remap_diskann_pages.cpp:182-193 | The still free pages of a run become one contiguous stretch |
| ExtentPages.RunsInTurn | tools/remap_diskann_pages.cpp:182-193 | Over all runs: what the earlier runs placed, then this run's still free pages in one stretch, then everything later |
| ExtentPages.KeepsMates | tools/remap_diskann_pages.cpp:198-203 | Two ids share a page afterwards exactly when they did before |
| ExtentPages.BijectiveIffLastStays | tools/remap_diskann_pages.cpp:198-203 | The new slots are a bijection exactly when n is even or the half-full last page stays last |
| ExtentPages.HalfPageMoved | tools/remap_diskann_pages.cpp:198-203 | Concrete input: three records on two pages, moved half-full page first, and a record goes to a fourth slot |
| Placements.RewriteImage | tools/remap_diskann_pages.cpp:476-499 | Record idToSlot[id] of the new image is record id of the old one, and the header is kept |
| Placements.Placement.LoadSlotMap | serving/placement.hpp:94-112 | Accepted exactly when the file holds a permutation; a refused one leaves slot_of as it was, but has overwritten id_of_slot unless it was short, and then the two undo each other only for a single record |
| Placements.RefusedMapBreaks | serving/placement.hpp:103-109 | Concrete input: no map, two records and the file [0, 0]: slot 1 then has no id, and id 0 no sibling |
| Placements.Placement.SlotsUndo | serving/placement.hpp:76-83 | slot_of and id_of_slot undo each other |
| Placements.Placement.SiblingsPair | serving/placement.hpp:85-93 | Siblings come in pairs on slots 2i and 2i + 1, and share the page when it holds an even number of records; an id has none exactly with fewer than two records a page or on an unpaired last slot |
| RemapTool.RemapAndLoad | tools/remap_diskann_pages.cpp:382-499 | Tool and reader together: the reader accepts the map the tool writes, reads every id's own record from the rewritten image, keeps the header, and finds each paired id's mate as its page sibling |
| RemapTool.ExtentAndLoad | tools/remap_diskann_pages.cpp:120-203 | Extent mode and reader together: the reader accepts the written map exactly when n is even or the half-full last page stays last; then every id reads back its own record, the header is kept, and ids share pages as they did |
| PageIds.IdsTouching | serving/placement.hpp:157-177 | In increasing order, the indexes whose vector overlaps the page range; with a header whose sizes disagree, exactly those the loop's bounds leave in |
| PageIds.TouchingAreIds | serving/placement.hpp:157-177 | Over all ranges of pages those indexes are the ids on the pages exactly when record id and record SlotOf(id) lie on the same pages for every id; always so for packed vectors |
| PageIds.HalfPageRecords | serving/placement.hpp:157-177 | With two records to a page that is: the map keeps every id on its own page, SlotOf(id) / 2 == id / 2 |
| PageIds.TouchingMissesMoved | serving/placement.hpp:176-176 | Concrete map: the ids listed for a page are the two that left it |
| PageIds.IdsOfRecords | serving/placement.hpp:181-199 | Exactly the ids whose record lies inside the page, once each and in the order of their slots, for any bijective map |
| PageIds.IdsOfVectors | serving/placement.hpp:200-228 | Exactly the vectors inside the page whose padding does not stick out (vector 0 apart); all vectors inside it when densely packed |
| PageIds.AllListedIff | serving/placement.hpp:200-228 | All vectors inside the page are listed exactly when the last that could end there has its padding there too, is none, is vector 0, or starts before the page |
| PageIds.PaddedVectorSkipped | serving/placement.hpp:200-228 | Concrete header: a vector inside the first page is skipped, its padding ending on the second |
| TierMap.BijectiveIffAligned | motivation_exps/include/vmem_sw_layout.h:31-68 | While no product overflows, logical bytes map one to one onto all RAM and SSD bytes exactly when RAM is whole stripes and the logical size is RAM plus SSD |
| TierMap.PartStripeOverruns | motivation_exps/include/vmem_sw_layout.h:31-68 | Concrete sizes: RAM of half a stripe, and the byte after the only whole stripe is sent past the end of the SSD |
| TierMap.BijectiveIffWordSafe | motivation_exps/include/vmem_sw_layout.h:47-66 | For consistent sizes the map is a bijection exactly when the product for the last stripe fits 64 bits |
| TierMap.OverflowOverruns | motivation_exps/include/vmem_sw_layout.h:47-66 | Concrete sizes: stripes of one byte, 4 GiB of RAM and one byte of SSD, and the last byte is sent past the end of the SSD |
| TierMap.BijectiveIff | motivation_exps/include/vmem_sw_layout.h:31-68 | For every layout the opener can produce the map is a bijection exactly when RAM is whole stripes, the logical size is RAM plus SSD and the product for the last stripe fits 64 bits; that the sizes agree follows by counting, overflow or not |
| TierMap.ContiguousRun | motivation_exps/include/vmem_sw_layout.h:43-66 | Each of the announced contiguous bytes lands in the same tier at consecutive offsets, none past the end |
| TierMap.InProportion | motivation_exps/include/vmem_sw_layout.h:43-66 | While no product overflows, RAM has of the first s stripes its share, rounded down, and SSD the others; on each tier the stripes stand in logical order without a gap |
| TierMap.RamBytesAreStriped | motivation_exps/include/vmem_sw_layout.h:52-58 | A RAM byte past the last whole stripe is never reached |
| TierMap.NoSpanWrap | motivation_exps/include/vmem_cxl.hpp:159-167 | With the fields as they are set at opening, the striped span does not wrap and no division is by zero |
| PromotePipes.PromotePipe.Room | serving/promote_pipe.hpp:83-94 | inflight is at most W, and below W exactly when some slot is free |
| PromotePipes.PromotePipe.TrySubmit | serving/promote_pipe.hpp:83-104 | Refused exactly for an empty request or with W outstanding; otherwise the first free slot is queued last and counted |
| PromotePipes.PromotePipe.Take | serving/promote_pipe.hpp:159-166 | The slot queued first goes to exactly one worker |
| PromotePipes.PromotePipe.Copy | serving/promote_pipe.hpp:167-172 | The slot then holds the bytes it was asked for |
| PromotePipes.PromotePipe.Announce | serving/promote_pipe.hpp:183-184 | A slot becomes Done only holding its bytes |
| PromotePipes.PromotePipe.Release | serving/promote_pipe.hpp:144-153 | The slot is freed and uncounted if it was in use; the pipeline stays consistent exactly when it was not still queued |
| PromotePipes.ReleaseHanded | serving/promote_pipe.hpp:144-153 | Freeing a slot keeps every hand-over intact exactly when it was not still queued |
| PromotePipes.QueuedSlotFreed | serving/promote_pipe.hpp:144-153 | Concrete state: a slot freed while queued leaves its number in the queue |
| PromotePipes.PromotePipe.Wakes | serving/promote_pipe.hpp:113-134 | The repair of the counter never changes it; the wait ends exactly on stop, on a Done slot, or with nothing outstanding |
| PromotePipes.PromotePipe.NotWedged | serving/promote_pipe.hpp:156-166 | With work outstanding and none of it finished, some worker can go on exactly when some worker has not left |
| PromotePipes.PromotePipe.PollDone | serving/promote_pipe.hpp:106-111 | Exactly the Done slots, in increasing order, each holding its bytes |
| CopyPools.PageCopyPool.Push | serving/page_copy_pool.hpp:61-95 | Jobs join the queue in order, across compaction; they will be run exactly when some worker has not left, stopping or not |
| CopyPools.PageCopyPool.Take | serving/page_copy_pool.hpp:116-124 | Workers take jobs in the order they were submitted |
| CopyPools.PageCopyPool.Run | serving/page_copy_pool.hpp:125-127 | A job runs when it had not run before |
| CopyPools.PageCopyPool.Finish | serving/page_copy_pool.hpp:128-129 | inflight is what is announced, queued or being worked on |
| CopyPools.PageCopyPool.IdleMeansDone | serving/page_copy_pool.hpp:97-101 | When inflight is zero every submitted job has run exactly once |
| CopyPools.PageCopyPool.JoinDrains | serving/page_copy_pool.hpp:42-57 | When all workers of a consistent pool have left, every job has run exactly once |
| CopyPools.PageCopyPool.NotWedged | serving/page_copy_pool.hpp:116-130 | With work outstanding some worker has a step to take |
| CopyPools.SubmittedTooLate | serving/page_copy_pool.hpp:42-57 | Concrete run: the only worker leaves, and a job submitted then is counted and never run |
| CopyPools.Compacted | serving/page_copy_pool.hpp:109-114 | Compaction keeps the waiting part of the queue and bounds the spent part |

## Left out

- HidePipes.HidePipe.Issue: a stalling call away from the window asks for an idle slot or no missing page, since otherwise the source's loop never ends, as StallEndsIff says.
- HidePipes.HidePipe.WaitCovering: away from the window it asks for room in the idle slots, since otherwise the source's loop never ends, as ShortForever says; in window mode with staged fills it states only that the loop ends and the protocol is kept, since a page that was resident once may be evicted by a later install before the return.
- HidePipes.HidePipe.CopyBounce: in Vmem mode the source reads the image itself, which is not modelled as an operation.
- HidePipes.HidePipe.constructor: for fills straight into window frames the window must be larger than its pin cap plus 32 x 1024 pages, the bound on one pipe's reservations; for staged fills, than its pin cap. Several pipes on one window are not covered.
- PageIds.IdsTouching: asks for a vector when the range meets the bytes set aside for vectors; with none the source's last index wraps.
- BfsLayout.StarPack: at least one node; with none the source writes past its empty arrays.
- BfsLayout.PageBin: the same.
- PqTables.PqTable.PermuteInPlace: asks for a map on which the loop ends; on the others, exactly those LoopOutcome names, there is no result to state.
- PagePairs.PairEdges: takes the weighted pairs already counted and sorted; any order of ties is allowed.
- BundlePack.Pack: at most 32 in-range neighbours a row, the buckets the source has; more would index past them. The CSR parent lists are one list per node here.
- SchedulerProofs.SchedulingInvariance: a query's pages are covered or not as the environment pleases, except that a query needing none is covered and that staged scoring needs the flags up. Staged fills are taken to keep their protocol, which release_pages can break, as ReleaseExact says.
- SharedProofs.SharedInvariance: the shared window only; its answers are by the scores that were read, and that these are the full-precision distances is SharedAnswer, for pointers that were held.
- SchedulerEnds.EndsIff: that a run goes on to the end, not that every run does: a query whose pages are all resident gets no token and goes back to Hold, and a waiting seat whose pages were evicted is not issued again, so it waits on what the window does. Sources change as they please within their kind; other threads' pins are not counted against the frames.
- SharedEnds.EndsIff: the same; each read is of a window that keeps its invariant, a different one from read to read.
- SoftPins.InstallAllRoom: room in the soft budget is three pages for every page of the batch, the neighbours included, as if each were granted anew; the exact outcome of each install is InstallAsks with SoftPinExact.
- Yielding: the pipe's waits end because a yield lets some pending job take a step; fairness of the operating system scheduler is taken for granted.
- Condition variables, memory order and mutexes: each critical section or atomic access is one step.
- Machine width: clock hand, counters and ids do not wrap, except in the tier map, which is in 64-bit words.
- Distances: real numbers; rounding, NaN, SIMD kernels and k-means are left out.
- PqTables.FillLut: the flat table of floats is one list per chunk.
- Files, device reads, mmap, affinity, argument parsing, metrics, traces and plots: a device read is a job that fills its destinations from the image.
- install_host, promote_span, lookup_or_promote and flush_all of the window: partial pages, spill buffers and flushing during fills.
- hide_extent_run, hide_stripe_fill and bundle pages: widening a request by neighbouring pages.
- PrefetchHub: a lock around the pipe; its operations are the pipe's.
- The neighbour bundle branch of for_ids_contained_in_page, and graph_host in nbrs.
- The P3 parkable query, oracle, frozen and one-shot modes of the search, and the entry navigation graph.
- Trace-driven and replayed numberings of the bundle tool: they assign in the order given.
