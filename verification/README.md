# 12to11: proofs about its core algorithms

12to11 is a Wayland compositor that runs as a client of an X server. This project models the parts
of it that hold state or change data in place, and proves what they are relied on for. Every file
holds one or two modules; `dafny verify dfyconfig.toml` checks them all.

Code that the program writes as functions that update objects, arrays or lists is written here as
classes and methods over the same fields, arrays and lists. Each such method is tied to a function
on plain values (`ensures Value() == Spec(old(Value()), ...)`), and the lemmas are about those
functions and about every run made of them. What the functions keep as history is tied to the steps
of the run, so that the main results are about what happened and not about what was noted. Replies
of the X server, the kernel and callbacks are parameters: the answer of a data source, whether a
command could be spawned, which children have ended, where memory was mapped, the time, what
uninitialized memory holds.

| files | subject |
|---|---|
| Common | optional values, minimum and maximum |
| BarrierGeometry, BarrierSpec, BarrierProofs, BarrierRegion, BarrierCapacity, BarrierArray | the decomposition of a region into rectangles with open and closed edges (pointer_constraints.c) |
| SelectionWrite, WriteTransfer, SelectionRead, SelectionPipe, SelectionOwner, SelectionServe, SelectionArrivals, PropertyAtoms | incremental selection transfers (section 2.7.2 of the ICCCM), both ends, their composition, the queue of requests and the property atoms (select.c) |
| BufferActivity, BufferDestroy, BufferRuns, BufferEvents, BufferLists | when client buffers are released (picture_renderer.c, buffer_release.c) |
| BackBuffers, BackEvents | double buffering and buffer ages (picture_renderer.c) |
| BusfaultTree, BusfaultNodes | the AVL tree of memory ranges in which bus faults are ignored (fns.c) |
| ShmPools, ShmReference, ShmObjects | shared memory pools and buffers, on top of that tree (shm.c, picture_renderer.c) |
| FrameClock, FrameClockAnswers, FrameTiming, FrameClockTimed, FrameClockObject | the frame synchronization counter, the prediction of frame ends, and both together (frame_clock.c) |
| Positioner | popup placement (positioner.c, output.c) |
| CommandLine, ProcessQueue | command lines and the queues of commands to run (process.c) |
| AssocTable, AssocNodes | hash tables from X identifiers to data (fns.c) |

## Main results

- **Barriers.** For every banded region, the rectangles computed partition exactly the region, and
  every edge is closed if nothing of the region lies across it and open if only region does; so a
  one-pixel step out of a rectangle crosses a closed edge if and only if it leaves the region. The
  in-place computation with its five overlap shapes refines the one on sequences, and it reports
  failure if and only if the rectangles leave no slot free in a buffer of six for each box. When it
  writes past that buffer is characterized exactly (see below).
- **Selections.** However events interleave, a transfer that ends has written all its data, in one
  property or as INCR, non-empty chunks and one empty property. With the reader at the other end of
  one property, success means that exactly what the data source gave was received and that it was at
  its end, no unread value is ever overwritten, the two ends never wait for each other, and
  everything that calls for the data source to be asked again is answered. Requests for a property
  are served in the order in which they came, across nested drains of the queue, with one unfinished
  transfer at a time; none is lost unless it is refused, and each that starts has a transfer of its
  own until that is over. No two reading transfers share a property atom, and no more atoms are
  interned than were needed at once.
- **Buffers.** In every run a buffer counts as idle exactly when the round trip of every frame that
  drew from it has come back and so has the notice for its last presentation, by the steps of the
  run alone; a buffer that was let go of has been released exactly if that was so at some time
  since, or its helper was freed; acknowledgements and idle notices run exactly the callbacks of
  buffers that have become idle; and every buffer given to a helper is released exactly once.
  Notices for older presentations are ignored, so that a buffer can count as idle while one of them
  is still out (`OlderMayBeOut`); where notices come in order none is (`QuietMeansOver`). At most
  one back buffer is busy, namely from the swap that shows it to its notice or the next swap; ages
  count swaps; and drawing into a buffer that was shown waits for it.
- **Bus faults.** Insertion keeps the tree balanced and of logarithmic height; over any run of
  insertions and removals it holds exactly the recorded ranges and removal never aborts. Removal can
  leave a node out of balance (see below); whether it does is an if-and-only-if on the rebalances
  along its path. Over any run of pool and buffer requests the trapped ranges are those of the live
  pools that can fault, every pixel of every live buffer is inside its pool, and pools and buffers
  are what the requests make them: every sound one is granted, and no other.
- **Frame clock.** The mutual recursion terminates. The counter is odd exactly while a frame is
  open. The values written never decrease with refresh prediction off; with it on, they never
  decrease unless a sync request overtakes a predicted frame end, and the next start right after a
  request steps back if and only if that request does so. Whether an end is predicted follows from
  the timings of earlier frames and the time. A sync request that comes during a frame is answered
  by the frame after it, which starts from the value of the request (`NextFrameAnswers`).
- **Popups.** Where a popup goes and how large it becomes is characterized exactly, axis by axis,
  and so is whether it ends within its output.
- **Command lines, tables.** Splitting equals an independent definition, for every string, and
  undoes printing; every command asked for is tried once, in order; the hash table behaves as a
  finite map.

## Where the code does not do what it is for

- `RebalanceBusfault` takes the double rotation when both grandchildren are equally tall
  (fns.c:621-630), which only removal can bring about; `RemovalMayUnbalance` removes a node from a
  balanced tree and leaves another out by two. `RebalanceBalancedIff` says exactly when rebalancing
  succeeds, and `RemoveBalancedIff` says exactly which removals keep a tree balanced: those on whose
  path it always does. The tree is one that insertions build (`TieIsBuilt`).
- In `StartFrame` (frame_clock.c:439-442, 466-469) a configure value of 2 modulo 4 makes a
  non-urgent frame start at 3 modulo 4, so that the comment above those lines does not hold; what
  holds is that the value is odd (`StartIdFacts`).
- With refresh prediction on, a configure value that is not out of date when it comes can be so once
  the frame has been ended for it (frame_clock.c:268-302); the next frame then starts below the
  value written last. `StepsBackIffOvertaken` says exactly for which requests;
  `PredictionMayStepBack` is a run, with the timings of a first frame, that writes 1, 4, 5, 8, 7.
- `PostEndFrame` subtracts 200 from an unsigned 32-bit frame delay (frame_clock.c:396), so that a
  delay below 200 moves the deadline by 2^32 microseconds (`DeadlineIs`, `DeadlineIff`;
  `ShortDelayIsEarly` is an example). `PredictedEndIsPastIff` says when the end that is predicted
  for a frame lies before the frame.
- A popup that is slid although it is larger than the output is not made to fit by resizing it
  afterwards (positioner.c:677-678, 703-704; `SlideAndResizeIff`, and `SlidIsNotResized` for an
  example).
- `ProcessEscapes` looks at the first character of the string instead of the current one
  (process.c:236); `ProcessedIff` says exactly for which strings that makes no difference; for the
  string a\b it makes one (`LaterEscapeStays`).
- The second split of case C is made after a test for one slot less than it needs
  (pointer_constraints.c:492), so that its right part may be written just past the buffer. At the
  test that is so if and only if the line above starts right of the line, ends left of its end, and
  the line is the last but one of the buffer (`SplitC`). `OverrunsIff` says the same of the lines as
  they are before: a line above ends inside the line with nothing directly to its right, and there
  is room for one line more, or for two if a line above goes past the right end. `OverrunNeverFits`:
  it never happens to a region whose lines fit six slots for each box, and where it happens the
  computation returns nothing (`ComputeBarrier`). `NestOverruns` is a region for which it happens:
  eleven rows, each two columns wider than the one above; k such rows take k * k lines
  (`NestLines`).
- `DestroyRenderTarget` drops the callbacks that wait for the target (picture_renderer.c:1437-1446).
  All stays in order if and only if there are none (`DestroyTargetKeepsIff`). XDG surfaces free
  their helper first (`HelperFirst`); icon surfaces free it afterwards (icon_surface.c:96-101), so
  that it can still cancel a callback that is gone (`TargetFirst`).
- `HandleChild` returns at the first process that a queue runs (process.c:104), although it is to
  reap all that have exited, and otherwise asks again as long as waitpid answers 0, that is, while a
  child is alive and none has ended (process.c:88-108). `ReturnsAtOnceIff`: it returns without
  another child having to end if and only if a process of a queue has ended or no child is left
  alive; `ReturnsIff` says the same with the children that end while it asks. A signal that is for
  something else does not let it return while a queue runs a process (`StallsWhileRunning`); the end
  of another child is an example (`StallsForOther`). `ReapsAllIff`: it returns at once with every
  queue free whose process has ended if and only if there is exactly one such queue, or none and no
  child left alive; of two it leaves the second (`LeavesTheSecond`).

## Assumptions

- A data source says that it needs a bigger buffer only together with data, and never gives more
  than was asked for (xdata.c:1619-1638).
- Round trip messages come back in order; the server delivers the events of one connection in order;
  mappings of memory do not overlap.
- Drawing and finishing a frame are one step: the buffers drawn from are known to be busy when the
  round trip is sent.
- The age of a back buffer that was never shown is 0, as the comment at picture_renderer.c:203 says;
  its presentation serial is whatever was in memory.
- A notice for a client buffer carries no serial that a back buffer of the same target has, so that
  it reaches the list of presentations.
- Counters (round trip ids, frame ids, tokens) stay below the width of their C types, except where
  wrapping is written out: the presentation serials in BackBuffers, times, sizes and strides.

## Model

| member | source | states |
|---|---|---|
| BarrierGeometry.PartitionsRegion | pointer_constraints.c:576-695 | every point of the region is in exactly one rectangle of a barrier, and no other point is in any |
| BarrierGeometry.ClosedEdgesConfine | pointer_constraints.c:160-574 | a one-pixel step out of a rectangle crosses a closed edge if and only if it leaves the region |
| BarrierProofs.ResolveDivides | pointer_constraints.c:187-571 | splitting the band above only divides its lines: the band covers the same columns from left to right, and every part keeps its line's rows, top and outer sides |
| BarrierProofs.ResolveBottoms | pointer_constraints.c:187-571 | after a line is put below, every bottom above is open along exactly the columns it should be |
| BarrierProofs.ResolvePieces | pointer_constraints.c:187-571 | the pieces of the line itself chain up to it, and their tops are open exactly below the band above |
| BarrierRegion.PlaceOK | pointer_constraints.c:160-574 | placing a line extends the barrier around a region to one around the region and the line |
| BarrierRegion.AddBoxOK | pointer_constraints.c:598-676 | adding the next box, in any of the four ways, extends the barrier by it |
| BarrierRegion.AddBoxesOK | pointer_constraints.c:576-695 | for every banded region the lines computed are a barrier around it |
| BarrierRegion.InvIsBarrier | pointer_constraints.c:576-695 | the invariant gives the partition and the correct edges |
| BarrierArray.FindLastBandEnd | pointer_constraints.c:133-147 | returns the last line of another band before the current one, or -1 |
| BarrierArray.LineMove | pointer_constraints.c:149-153 | moves a stretch of lines and leaves the rest alone, overlapping or not |
| BarrierArray.Contained | pointer_constraints.c:195-303 | a line above that covers the whole line is split into at most three, with the window's bottom opened, or the lines do not fit |
| BarrierArray.CaseA | pointer_constraints.c:352-401 | an overlap from the left splits both lines once and opens the edge between them |
| BarrierArray.CaseB | pointer_constraints.c:403-458 | an overlap from the right splits both lines and handles what is left of the line |
| BarrierArray.SplitC | pointer_constraints.c:474-530 | the splits of a line with a line above inside it, and exactly when the right part of the second is written just past the buffer |
| BarrierArray.CaseC | pointer_constraints.c:459-571 | a line above inside the line splits it at one end or both and handles what is left; a write past the buffer is reported exactly when it happens, and the result is that of the specification all the same |
| BarrierArray.MaybeCloseTopEdge | pointer_constraints.c:160-574 | the recursion on the buffer leaves what the specification computes, or reports that it does not fit, and says exactly whether it wrote past the buffer; it terminates because the line gets narrower |
| BarrierArray.ComputeBarrier | pointer_constraints.c:576-695 | fails if and only if no slot of the six for each box is left free, and otherwise returns a barrier around exactly the region; it writes past the buffer exactly for the regions with RegionOverruns, and then fails |
| BarrierCapacity.OverrunsIff | pointer_constraints.c:459-530 | resolving a line writes past the buffer if and only if a line above ends inside it, right of its start, with a free column directly to the right, and the buffer has exactly one slot more than the line (two if a line above goes past its right end) |
| BarrierCapacity.OverrunIsTooMany | pointer_constraints.c:459-530 | where it does, the lines that come of it do not fit |
| BarrierCapacity.OverrunNeverFits | pointer_constraints.c:576-695 | no banded region whose lines fit six slots for each box makes the computation write past its buffer |
| BarrierCapacity.NestOverruns | pointer_constraints.c:490-498 | the ninth of eleven nested rows finds 64 of 66 slots in use and writes past the buffer |
| BarrierCapacity.NestLines | pointer_constraints.c:591-595 | k nested rows take k * k lines, so that six for each rectangle are not always enough |
| SelectionWrite.BecomeReadableKeeps | select.c:1052-1118 | whatever the data source answers, what has been written, is buffered and was read stay in agreement |
| SelectionWrite.PropertyDeletedKeeps | select.c:1653-1716 | the deletion of the property keeps that agreement at every stage of a transfer |
| SelectionWrite.RunKeeps | select.c:829-1118 | and so does any interleaving of readable and property-deleted events |
| SelectionWrite.NormalFinish | select.c:829-1118 | a transfer that has come to its end wrote one property with the whole source, or INCR, chunks none of which is empty, and one empty property |
| SelectionWrite.ConsumedIsSource | select.c:1078-1117 | the bytes accounted for are those the data source handed out, in order |
| SelectionWrite.EndedIsSaid | select.c:1078-1117 | a transfer ends, and can be over, only when its data source has answered that it is at its end |
| SelectionWrite.CallsAreAnswered | select.c:1065-1109 | a transfer that is not over and waits for no deletion has asked its data source after everything that called for it, be it a notice, one that came too early, or an answer for want of room; and it has room for an answer |
| SelectionWrite.DataInFullChunks | select.c:1078-1106 | unless the data source wants a bigger buffer, data smaller than the buffer is one property, and other data comes in full chunks but for the last |
| WriteTransfers.WriteTransfer.FlushTransfer | select.c:829-885 | writes the buffered data, or INCR first, empties the buffer and waits; called only while nothing is waited for, as asserted |
| WriteTransfers.WriteTransfer.FreeTransfer | select.c:939-1007 | ends the transfer, an incremental one with an empty property |
| WriteTransfers.WriteTransfer.TransferFinished | select.c:1021-1050 | finishes later, flushes first, or frees, as the specification says |
| WriteTransfers.WriteTransfer.FillBuffer | select.c:1080-1094 | the data source's data goes behind what is buffered, within the buffer, as asserted |
| WriteTransfers.WriteTransfer.UseStatus | select.c:1087-1117 | flushes a full or too small buffer, finishes at the end of the data source |
| WriteTransfers.WriteTransfer.TransferBecameReadable | select.c:1052-1118 | the object becomes what the specification says |
| WriteTransfers.WriteTransfer.HandlePropertyDelete | select.c:1653-1716 | the object becomes what the specification says when the property is deleted |
| SelectionRead.ReadTransfer.FinishTransfers | select.c:499-514 | reports success exactly if the finished transfer has not failed |
| SelectionRead.ReadTransfer.FinishChunk | select.c:519-531 | an incremental transfer waits for more, another is finished |
| SelectionRead.ReadTransfer.StartSelectionRead | select.c:609-694 | fails, starts an incremental transfer, succeeds on an empty property, or announces data |
| SelectionRead.ReadTransfer.ReadChunk | select.c:550-607 | hands over the units asked for, says how much is left, and deletes the property with its last byte |
| SelectionRead.ReadTransfer.HandlePropertyNotify | select.c:1718-1762 | looks at a new value only while a chunk is awaited |
| SelectionPipe.PlayKeeps | select.c:519-694 | the two ends and the property between them are always in one of five consistent phases |
| SelectionPipe.SuccessIsComplete | select.c:499-694 | the reader reports success only after the data source has said that it is at its end and exactly the bytes that it gave have been received in order, and never failure without a timeout; what it has is always a prefix |
| SelectionPipe.CollectedSucceeds | select.c:499-514 | in every run, collecting a transfer that is finished reports success |
| SelectionPipe.NeverOverwrites | select.c:829-885 | the writer changes the property only after the value before has been taken and deleted |
| SelectionPipe.NeverStuck | select.c:1653-1762 | with nothing on its way and nothing to read, the reader has succeeded or the writer only waits for its data source, has room, and has asked it again after every move that called for it |
| SelectionOwner.ServedInOrder | select.c:1438-1496 | requests for one requestor and property are served in the order received, and each is served or still queued |
| SelectionOwner.ReactKeeps | select.c:1176-1195 | every event keeps the order, the exclusion and the empty queue |
| SelectionOwner.AlwaysOrderly | select.c:1392-1617 | in every run: one unfinished transfer per requestor and property, service in order and without loss, and nothing queued when no transfer is live |
| SelectionServe.ReactServes | select.c:1525-1557 | after any event the live transfers are those it leaves, each having seen the event if it is for it, and a new one for each request now served that starts |
| SelectionServe.StartedHasSlot | select.c:1525-1557 | in every run a request that is served and starts has a new live transfer after that step |
| SelectionServe.LivesUntilOver | select.c:1653-1716 | and has a live transfer from then on, until an event frees that transfer or it times out |
| SelectionServe.SlotRuns | select.c:1653-1716 | every live transfer has taken just the steps that the events brought, from new |
| SelectionArrivals.AskedIsHeld | select.c:1392-1496 | in every run a request that has come and has not been refused is served or queued |
| SelectionArrivals.HeldHasCome | select.c:1392-1496 | and nothing else is |
| SelectionArrivals.ArrivalIs | select.c:1438-1496 | a request is served at once if and only if it is not refused, no unfinished transfer is live for its requestor and property, and none is queued for either |
| SelectionArrivals.DrainLeavesWaiting | select.c:1580-1617 | when the last transfer has gone, what is queued again waits for a transfer started in its place or a request queued before it |
| SelectionArrivals.ServedAsTheyCame | select.c:1438-1617 | in every run, of two requests for one requestor and property that are not refused, the one that came first is served first |
| SelectionOwner.Selections.FindWriteTransfer | select.c:756-777 | whether an unfinished transfer for the requestor and property is live |
| SelectionOwner.Selections.FindQueuedTransfer | select.c:779-796 | whether a request with the same requestor or the same property is queued, as the code has it |
| SelectionOwner.Selections.HandleSelectionRequest | select.c:1392-1578 | refuses, queues, answers or starts a request, and frees a transfer that cannot be set up |
| SelectionOwner.Selections.FreeTransfer | select.c:939-1007 | unlinks a transfer and drains the queue when it was the last |
| SelectionOwner.Selections.DrainQueuedTransfers | select.c:1580-1617 | moves the queue aside and handles every request in order, which may queue some again |
| SelectionOwner.Selections.HandlePropertyDelete | select.c:1653-1716 | passes the event to the live transfers from the oldest to the newest |
| PropertyAtomSpec.AllocIsFresh | select.c:265-315 | the atom allocated is not in use, and is interned under a name no atom in use has |
| PropertyAtomSpec.RunKeeps | select.c:274-333 | over any run every atom interned is in use or free and not both, and there are as many as were in use at once |
| PropertyAtomSpec.InternedAreNeeded | select.c:274-333 | over any run as many atoms are interned as were taken and not given back at once |
| PropertyAtomSpec.StepUses | select.c:274-333 | a step takes just one atom into use, or out of use |
| PropertyAtoms.PropAtoms.AllocPropAtom | select.c:274-315 | reuses a free atom or interns the next; aborts only with none free after the last counter |
| PropertyAtoms.PropAtoms.ReleasePropAtom | select.c:317-333 | moves one atom from the used list to the free list |
| BufferActivity.HandleActivityEventOK | picture_renderer.c:688-714 | when a round trip comes back, exactly the callbacks of buffers that have become idle run, and helpers that lost their last record are told once |
| BufferActivity.HandleIdleNotifyOK | picture_renderer.c:3423-3485 | when an idle notice comes, exactly the callbacks of buffers that have become idle run, and helpers that lost their last record are told once |
| BufferActivity.NewestNoticeCounts | picture_renderer.c:3456-3478 | of the notices for a buffer on a target, exactly that for its newest presentation ends what is awaited |
| BufferActivity.OlderNoticeIsIgnored | picture_renderer.c:3460-3475 | a notice for an older presentation changes nothing |
| BufferActivity.LateNoticeIsIgnored | picture_renderer.c:3456-3480 | a notice for no presentation that is known changes nothing |
| BufferRuns.GoneNoticeIsIgnored | picture_renderer.c:3456-3480 | so a notice that comes after its buffer or target has been destroyed changes nothing |
| BufferRuns.PendingIsNewest | picture_renderer.c:1951-1964 | in every run a presentation is on the list exactly if it is the newest of its buffer on its target and no notice for it has come; the record carries its serial |
| BufferActivity.FinishRenderKeeps | picture_renderer.c:1725-1786 | finishing a render keeps one record per buffer and target, with the newest id |
| BufferActivity.PresentKeeps | picture_renderer.c:1897-1977 | presenting keeps one pending presentation per buffer and target, the newest, with its serial |
| BufferActivity.ReleaseKeeps | icon_surface.c:165-184 | a buffer let go of is released at once if idle, and else given to the helper |
| BufferActivity.FreeHelperKeeps | buffer_release.c:72-99 | freeing a helper releases each of its buffers and leaves the others waiting |
| BufferRuns.IdleIsQuiet | picture_renderer.c:3225-3262 | a buffer counts as idle exactly when all its renders are acknowledged and the notice for its newest presentation has come |
| BufferRuns.QuietMeansOver | picture_renderer.c:3225-3262 | where notices come in order, exactly when all its renders and all its presentations are over |
| BufferRuns.OlderMayBeOut | picture_renderer.c:1951-1958 | otherwise not: a run after which a buffer counts as idle with an older presentation out |
| BufferRuns.CallbacksRunWhenQuiet | picture_renderer.c:639-714 | in every run a callback runs on an acknowledgement or notice if and only if its buffer is quiet after it |
| BufferRuns.ReleasedExactlyOnce | buffer_release.c:72-146 | in every run no buffer is released twice, and once all renders are acknowledged and all newest presentations over, each has been released exactly once and no callback is left |
| BufferRuns.OneNewestRecord | picture_renderer.c:565-609 | in every run there is at most one activity record per buffer and target, of the newest render |
| BufferEvents.CountersCount | picture_renderer.c:512-538 | in every run the round trip ids, serials, acknowledgements and buffers let go of count the steps that bring them |
| BufferEvents.HistoryIsSteps | picture_renderer.c:1744-1761 | in every run the renders, presentations and notices known are just those that the steps brought, of every buffer drawn from, with buffer and target still there |
| BufferEvents.IdleIff | picture_renderer.c:3225-3262 | in every run a buffer counts as idle if and only if every frame that drew from it is acknowledged and the notice for its last presentation has come, by the steps alone |
| BufferEvents.ReleasedIff | buffer_release.c:72-146 | in every run a buffer let go of has been released if and only if it was idle then or later, by the steps alone, or its helper was freed |
| BufferEvents.CallbackFrom | buffer_release.c:124-146 | every callback is for a buffer that a step let go of, with its target and helper |
| BufferEvents.StepTells | buffer_release.c:101-122 | helpers are told only by the steps that run callbacks, and just those that lose their last record |
| BufferDestroy.FreeBufferKeeps | picture_renderer.c:2991-3047 | the end of a buffer runs exactly its callbacks, tells the helpers that lost their last record, and keeps what is known of other buffers |
| BufferDestroy.DestroyTargetKeepsIff | picture_renderer.c:1416-1446 | the end of a target keeps records, callbacks and releases in agreement if and only if no callback waits for it |
| BufferDestroy.HelperFirst | xdg_surface.c:655-666 | where the helper of a target is freed first, the end of the target keeps everything in agreement |
| BufferDestroy.TargetFirst | icon_surface.c:96-101 | where the target is destroyed first, the helper can be left with the record of a callback that is gone |
| BufferLists.Renderer.SendRoundtripMessage | picture_renderer.c:512-538 | uses the next round trip id |
| BufferLists.Renderer.RecordBufferActivity | picture_renderer.c:565-609 | updates the record for the buffer and target, or puts a new one in front |
| BufferLists.Renderer.FinishRender | picture_renderer.c:1725-1786 | records all buffers drawn from under one new id |
| BufferLists.Renderer.PresentToWindow | picture_renderer.c:1897-1977 | records the presentation under a new serial |
| BufferLists.Renderer.IsBufferIdle | picture_renderer.c:3225-3262 | looks through both lists |
| BufferLists.Renderer.RunIdleCallbacks | picture_renderer.c:611-637 | runs and unlinks the callbacks for the buffer and target, and no other |
| BufferLists.Renderer.MaybeRunIdleCallbacks | picture_renderer.c:639-672 | does so only if nothing is under way |
| BufferLists.Renderer.HandleActivityEvent | picture_renderer.c:688-714 | drops the records of the round trip while callbacks change the lists |
| BufferLists.Renderer.HandlePresentIdleNotify | picture_renderer.c:3456-3478 | unlinks the presentation only if the serial is that of the newest |
| BufferLists.Renderer.BufferIdleCallback | buffer_release.c:101-122 | releases the buffer, unlinks the record and tells when it was the last |
| BufferLists.Renderer.ReleaseBufferWithHelper | buffer_release.c:124-146 | links a record and its callback |
| BufferLists.Renderer.ReleaseBuffer | icon_surface.c:165-184 | releases an idle buffer at once |
| BufferLists.Renderer.FreeBufferReleaseHelper | buffer_release.c:72-99 | the loop cancels every callback of the helper and releases its buffers |
| BufferLists.Renderer.FreeAnyBuffer | picture_renderer.c:2991-3047 | unlinks all records of a buffer and runs its callbacks |
| BufferLists.Renderer.DestroyRenderTarget | picture_renderer.c:1416-1446 | unlinks all records of a target and drops its callbacks without running them |
| BackBuffers.ChosenIsFree | picture_renderer.c:970-1013 | in every run at most one back buffer is busy and the one selected is not, as asserted |
| BackBuffers.NextBackIsUsed | picture_renderer.c:957-1013 | while no picture is selected, GetNextBackBuffer names the buffer EnsurePicture will use, or none if it will create one |
| BackBuffers.AgeCountsSwaps | picture_renderer.c:815-898 | an age is the number of swaps since, and including, the one that showed the buffer |
| BackBuffers.NoticeFreesItsOwn | picture_renderer.c:3437-3454 | a notice frees a busy buffer exactly if it carries its serial and the first slot, which is looked at first, does not carry the same |
| BackEvents.ShownIs | picture_renderer.c:815-898 | in every run the swaps are counted, and which one showed a buffer last |
| BackEvents.AgeIs | picture_renderer.c:870-888 | in every run the age of a buffer that has been shown is the number of swaps from the one that showed it last |
| BackEvents.BusyIff | picture_renderer.c:815-898 | in every run a buffer is busy exactly from the swap that shows it to the next swap, its notice, or its end, and carries the serial of that presentation |
| BackEvents.WaitsForShown | picture_renderer.c:937-955 | in every run selecting a buffer waits for its idle fence exactly if it has been shown, and nothing else waits |
| BackEvents.JustPresentedIff | picture_renderer.c:1800-1820 | in every run the target counts as just presented exactly if a client buffer was presented directly and no back buffer has been created since |
| BackEvents.SwapSerial | picture_renderer.c:838-843 | a swap uses a new serial that is not 0 |
| PictureTargets.PictureTarget.CreateBackBuffer | picture_renderer.c:759-795 | a fresh buffer in the slot, its serial whatever was in memory, and the target no longer counts as just presented |
| PictureTargets.PictureTarget.EnsurePicture | picture_renderer.c:970-1013 | selects the first buffer that is not busy, creating it if need be, and waits for its fence |
| PictureTargets.PictureTarget.SwapBackBuffers | picture_renderer.c:815-898 | presents the current buffer under a serial that is not 0, and ages the other |
| PictureTargets.PictureTarget.HandlePresentIdleNotify | picture_renderer.c:3437-3454 | marks the buffer with the serial as free |
| PictureTargets.PictureTarget.FreeBackBuffers | picture_renderer.c:739-757 | forgets both buffers |
| BusfaultTree.InsertFlat | fns.c:660-682 | insertion puts the range in its place in the order |
| BusfaultTree.RemoveFlat | fns.c:730-759 | removal takes out just the node that starts at the address |
| BusfaultTree.RemoveMissing | fns.c:730-759 | removing what is not there aborts |
| BusfaultTree.DeleteMinFlat | fns.c:705-728 | the least node is taken out and the order kept |
| BusfaultTree.DetectIff | fns.c:684-703 | a node is found exactly if the address lies in a recorded range, and it is that range's |
| BusfaultTree.InsertBalanced | fns.c:609-682 | inserting into an AVL tree gives one, as tall or one taller, and equal grandchildren never arise |
| BusfaultTree.FibonacciBound | fns.c:555-682 | a balanced tree of height h has at least Fib(h + 2) - 1 nodes |
| BusfaultTree.InsertionsStayBalanced | fns.c:660-682 | every tree built by insertions alone is balanced and obeys that bound |
| BusfaultTree.RebalanceBalancedIff | fns.c:609-658 | rebalancing a node with balanced subtrees, out by at most two, gives a balanced tree if and only if the children of the taller subtree differ in height, or the outward half of its inner child is just one lower than its outer child |
| BusfaultTree.DeleteMinBalancedIff | fns.c:705-728 | taking the least node out of a balanced tree leaves it balanced if and only if every rebalance on the path meets that condition, and as high or one lower in any case |
| BusfaultTree.RemoveBalancedIff | fns.c:730-759 | the same condition, along the path of a removal, for every balanced tree and every node of it |
| BusfaultTree.TieIsBuilt | fns.c:660-682 | eight insertions build the tree in question |
| BusfaultTree.RemovalMayUnbalance | fns.c:621-630 | a removal from a balanced tree, built by insertions alone, that leaves it unbalanced |
| BusfaultTree.InsertHolds | fns.c:837-851 | recording a range that meets no other adds just it |
| BusfaultTree.RemoveHolds | fns.c:853-859 | removing a recorded range never aborts and removes just it |
| BusfaultTree.RunHolds | fns.c:609-759 | over any run the tree is ordered with exact heights, holds exactly the recorded ranges, and finds an address exactly if it lies in one |
| BusfaultNodes.GetHeight | fns.c:555-562 | the stored height, or 0 for no node |
| BusfaultNodes.Link | fns.c:564-571 | children and height of a node set together |
| BusfaultNodes.RotateNodesLeft | fns.c:573-589 | the pointers are those of the rotated tree |
| BusfaultNodes.RotateNodesRight | fns.c:591-607 | the pointers are those of the tree rotated the other way |
| BusfaultNodes.RebalanceNode | fns.c:609-658 | single, double or no rotation by the heights; the source's assertions hold |
| BusfaultNodes.RebalanceBusfault | fns.c:609-658 | a missing tree is left alone, and any other rebalanced |
| BusfaultNodes.RecordBusfault | fns.c:660-682 | links the node in and rebalances on the way up |
| BusfaultNodes.DetectBusfault | fns.c:684-703 | returns the node whose range contains the address, if there is one |
| BusfaultNodes.DeleteMinNode | fns.c:705-728 | unlinks the leftmost node |
| BusfaultNodes.RemoveBusfault | fns.c:730-759 | unlinks the node, or aborts exactly if it is not there |
| ShmPools.WantedStrideIsLeast | picture_renderer.c:2898-2921 | the wanted stride is the least multiple of the scanline pad that covers a row |
| ShmPools.AcceptedIsInside | picture_renderer.c:2903-2939 | every pixel of an accepted buffer lies in the pool and within its row |
| ShmPools.CreatePoolKeeps | shm.c:413-497 | creating a pool keeps counts, traps and pixels |
| ShmPools.ResizePoolKeeps | shm.c:346-404 | growing a pool never aborts, moves its trap, and keeps every pixel inside |
| ShmPools.CreateBufferKeeps | shm.c:217-329 | creating a buffer takes one reference to the pool and lies inside it |
| ShmPools.DereferencePoolKeeps | shm.c:83-101 | dropping a reference frees the pool exactly if neither its resource nor a buffer is left |
| ShmPools.DereferenceBufferKeeps | shm.c:115-126 | dropping the last reference to a buffer drops one to its pool |
| ShmPools.DropPoolResourceKeeps | shm.c:331-338 | the end of the resource drops one reference to the pool |
| ShmPools.PoolLivesWhileUsed | shm.c:83-126 | a pool outlives a step exactly if its resource or a buffer of it is left |
| ShmPools.RunKeeps | shm.c:83-497 | no run aborts or uses a freed pool; traps are those of live pools that can fault; all pixels stay inside |
| ShmPools.FaultIsOfLivePool | fns.c:761-775 | in every run a fault is ignored exactly if a live pool that can fault contains the address |
| ShmReference.AcceptableIff | shm.c:237-259 | the checks, with their wrapping arithmetic, accept exactly sizes that X can draw, the wanted stride, and rows that end in the pool |
| ShmReference.RunIsSeen | shm.c:83-497 | over any run the pools and buffers, with sizes, places, layouts and uses, are those that the requests give, with no reference to counts: pools grow when asked, buffers are made when sound, and both live while someone has them |
| ShmObjects.SharedMemory.Trap | shm.c:486-491 | a trap is recorded unless the pool cannot fault |
| ShmObjects.SharedMemory.Untrap | shm.c:91-97 | the trap is removed unless the pool cannot fault |
| ShmObjects.SharedMemory.CreatePool | shm.c:413-497 | refuses sizes below 1 and failed mappings, and else records the pool |
| ShmObjects.SharedMemory.ResizePool | shm.c:346-404 | compares sizes as unsigned numbers, remaps and retraps |
| ShmObjects.SharedMemory.CreateBuffer | shm.c:217-329 | creates a buffer exactly if all checks pass |
| ShmObjects.SharedMemory.DereferencePool | shm.c:83-101 | counts down and frees |
| ShmObjects.SharedMemory.DereferenceBuffer | shm.c:115-126 | counts down, frees and dereferences the pool |
| FrameClockSpec.StartIdFacts | frame_clock.c:452-470 | a frame starts at an odd value above the one before and ends at a multiple of 4 above that; 1 modulo 4 only from a multiple of 4 |
| FrameClockSpec.StartFrameKeeps | frame_clock.c:417-486 | starting opens a frame, or resumes one whose end is only predicted |
| FrameClockSpec.EndFrameKeeps | frame_clock.c:488-530 | ending closes the frame unless the timer is to, and leaves no postponed sync request |
| FrameClockSpec.FreezeKeeps | frame_clock.c:260-320 | freezing ends an open frame early and keeps the parity of the counter |
| FrameClockSpec.RunKeeps | frame_clock.c:232-726 | in every run the counter is odd exactly while a frame is open and else a multiple of 4, and the end timer runs only during an open frame, as PostEndFrame asserts |
| FrameClockSpec.CounterNeverStepsBack | frame_clock.c:417-726 | in every run without an overtaking sync request the values written never decrease and the last is the current one |
| FrameClockSpec.UnpredictedNeverStepsBack | frame_clock.c:471-484 | with refresh prediction off the values written never decrease |
| FrameClockSpec.StepsBackIffOvertaken | frame_clock.c:260-320 | after a sync request the next start writes a lower value if and only if the request overtakes the predicted frame end |
| FrameClockTimed.PredictionMayStepBack | frame_clock.c:281-302 | a run with prediction on, beginning with a frame and its timings, that writes 1, 4, 5, 8 and then 7 |
| FrameClockTimed.RunIsClockRun | frame_clock.c:322-486 | a run in which predictions follow from timings and the time is a run of the clock, so that what holds of all those holds of it |
| FrameClockTimed.NoTimerAtStart | frame_clock.c:322-486 | in every such run no timer runs when a frame starts, as PostEndFrame asserts |
| FrameClockTimed.CounterNeverStepsBack | frame_clock.c:417-726 | in every such run without an overtaking sync request the values written never decrease and the last is the current one |
| FrameClockTimed.FirstEndIsNotPredicted | frame_clock.c:330-332 | on a new clock no end is predicted |
| FrameClockTimed.TimingsComeBack | frame_clock.c:655-699 | in every run the timings of a frame are put together with the time at which that frame was drawn |
| FrameClockTimed.TimingsAreTaken | frame_clock.c:676-698 | timings that are awaited are taken over, or forgotten if unavailable |
| FrameClockSpec.LastValueFreesClock | frame_clock.c:619-670 | an ended frame is waited for under the last value written, and hearing of that value alone lets the next frame start |
| FrameClockSpec.FakeFrameFreesClock | frame_clock.c:566-579 | without a compositing manager the timer lets the next frame start |
| FrameClockAnswers.PendingIsNewest | frame_clock.c:701-725 | in every run the postponed value is that of the newest request during the open frame, and a freeze is late exactly if a configure event has come since the last request |
| FrameClockAnswers.EndAnswers | frame_clock.c:488-530 | the end of an open frame answers the newest request during it: the clock waits for its value, or is fast forwarded if that is late and allowed, or just ends if the frame ends beyond it; with the freeze callback and the values written |
| FrameClockAnswers.TimerEnds | frame_clock.c:232-246 | the end that the timer brings is the same, if EndFrame was called |
| FrameClockAnswers.SyncIs | frame_clock.c:260-320 | what a request does that is postponed, out of date, or in time, with and without a predicted end |
| FrameClockAnswers.StartIs | frame_clock.c:444-486 | a frame starts one or three above the configure value that is waited for, or else the last value |
| FrameClockAnswers.NextFrameAnswers | frame_clock.c:417-530 | in every run a request that came during a frame and is not out of date at its end is answered by the next frame, the clock being frozen meanwhile |
| FrameClockAnswers.EightIsAnswered | frame_clock.c:417-530 | a request for 8 during the first frame: 1, 4 and then 9 are written |
| FrameClocks.FrameClock.StartFrame | frame_clock.c:417-486 | starts a frame exactly if none is in progress or its end is only predicted |
| FrameClocks.FrameClock.EndFrame | frame_clock.c:488-530 | ends the frame, applies a postponed freeze, and writes the counter; terminates |
| FrameClocks.FrameClock.FreezeForValue | frame_clock.c:260-320 | ignores values out of date, ends the frame early, and fast forwards a freeze that came late |
| FrameClocks.FrameClock.BumpFrame | frame_clock.c:253-258 | starts and ends an urgent frame |
| FrameClocks.FrameClock.HandleEndFrame | frame_clock.c:232-246 | ends a frame for which EndFrame was called |
| FrameClocks.FrameClock.HandleFrameDrawn | frame_clock.c:624-664 | lets the next frame start, and notes which frame's timings to await and when it was drawn |
| FrameClocks.FrameClock.HandleFrameTimings | frame_clock.c:666-699 | takes over the timings of the frame awaited only, unless they are unavailable |
| FrameClocks.FrameClock.HandleSyncRequest | frame_clock.c:701-725 | makes the value even, and freezes or postpones |
| FrameClocks.FrameClock.NoteFakeFrame | frame_clock.c:566-579 | the stand-in for a compositing manager |
| FrameTiming.TimespecRoundTrip | frame_clock.c:165-226 | microseconds and back lose only the nanoseconds |
| FrameTiming.TimestampRoundTrip | frame_clock.c:165-226 | every 64-bit number of microseconds survives the conversion |
| FrameTiming.TruncatedIsModulo | frame_clock.c:178-209 | the 32-bit time is the time modulo the period of the server time |
| FrameTiming.PostEndFrame | frame_clock.c:322-415 | computes the end of the frame, or that none can be predicted |
| FrameTiming.FirstFromIsFirst | frame_clock.c:382-389 | the target is the first presentation time, in whole intervals, that is not before now |
| FrameTiming.DeadlineIs | frame_clock.c:391-400 | what the deadline is for every frame delay: 2^32 microseconds early, modulo 2^64, if the delay is below 200 |
| FrameTiming.DeadlineIff | frame_clock.c:391-400 | the frame ends 200 microseconds after the frame delay allows if and only if the delay is at least 200 |
| FrameTiming.ShortDelayIsEarly | frame_clock.c:391-400 | a delay with which the frame ends 71 minutes early |
| FrameTiming.ReferenceIsNow | frame_clock.c:341-378 | the time measured from, with what was taken off it, is the time now, and not before the last presentation |
| FrameTiming.ReferenceIff | frame_clock.c:341-378 | whether there is a time to measure from, exactly: the last frame is less than 150 ms old, in 64 bits or in what a 32-bit server time keeps |
| FrameTiming.PredictedEndIsPastIff | frame_clock.c:322-415 | exactly when the predicted end of a frame lies before its start |
| Positioners.GetOutputAt | output.c:730-752 | the first output that contains the point |
| Positioners.ApplyConstraintAdjustment | positioner.c:730-834 | the steps on the two axes, interleaved, give each axis its own result; without an output nothing changes |
| Positioners.TryResizeAt | positioner.c:661-711 | resizes to the part inside the output, or leaves the popup alone |
| Positioners.LiesAtAnchor | positioner.c:218-342 | the popup lies on the gravity's side of a point on the anchor's edge of the rectangle |
| Positioners.SlideIsLeast | positioner.c:344-452 | sliding makes fit exactly what is not larger than the output, by the least movement |
| Positioners.ResizeIsIntersection | positioner.c:661-711 | resizing leaves exactly the part inside the output |
| Positioners.FittingIsUnchanged | positioner.c:454-711 | a popup that fits on an axis is not changed on it |
| Positioners.SlideAndResizeIff | positioner.c:344-711 | what sliding and then resizing makes fit, exactly |
| Positioners.SlidIsNotResized | positioner.c:677-678 | a popup that resizing alone would make fit and that sliding and resizing does not |
| Positioners.FitsIffX | positioner.c:795-823 | whether the popup ends within the output on the X axis, exactly |
| Positioners.FitsIffY | positioner.c:795-823 | whether the popup ends within the output on the Y axis, exactly |
| Positioners.EndsWithinOutputIff | positioner.c:730-834 | both, for the output the placement point is in |
| Positioners.FlipMirrorsX | positioner.c:454-563 | flipping mirrors the popup about the middle of the anchor rectangle, but for parity pixels |
| Positioners.FlipMirrorsY | positioner.c:565-659 | flipping mirrors the popup on the Y axis, but for parity pixels |
| Positioners.FlipIsInvolution | positioner.c:454-659 | flipping twice changes nothing, and a flip leaves the other axis alone |
| Positioners.GeometryIs | positioner.c:730-834 | where a popup goes and how large it becomes: as it is if it fits; flipped if that makes it fit; else slid to the end of the output, or cut off at it; for every adjustment |
| Positioners.SettleMeans | positioner.c:344-711 | what is slid moves no further than it has to, and what is resized keeps just the part in the output |
| Positioners.FlipsBeforeSliding | positioner.c:793-813 | a menu that may be flipped and slid goes to the other side of its anchor |
| CommandLine.ProcessEscapes | process.c:218-245 | rewrites the buffer in place to what the closed form says |
| CommandLine.ProcessedIff | process.c:218-245 | escapes are processed correctly if and only if there are none, only the first character is one, or all are and the first is of a backslash |
| CommandLine.LaterEscapeStays | process.c:231-240 | a string whose escape is not processed |
| CommandLine.ParseProcessString | process.c:247-343 | the loop returns the arguments of the specification |
| CommandLine.ArgumentsAreMeaning | process.c:247-343 | every string is split into the words outside quotes and the stretches within, in order, where a character after a backslash ends neither; each is then processed |
| CommandLine.EscapedSpaceStays | process.c:247-343 | a space after a backslash does not end an argument |
| CommandLine.RoundTrip | process.c:247-343 | printing arguments in quotes and splitting the result gives them back, empty ones too |
| ProcessQueueSpec.RunNextKeeps | process.c:165-198 | commands are tried from the oldest on until one starts |
| ProcessQueueSpec.RunKeeps | process.c:165-216 | over any run each command is tried once, in order, one process at a time, and none is left waiting without a process after a poll |
| ProcessQueueSpec.AcceptedAreAsked | process.c:345-379 | over any run every command asked for that is not empty has been tried or is pending, in the order asked, and no other |
| ProcessQueueSpec.RunNextTries | process.c:165-198 | commands are tried until one can be started, none that can be is given up, and its process is noted |
| ProcessQueues.ProcessQueue.RunNext | process.c:165-198 | unlinks what it tries and notes the process that starts |
| ProcessQueues.ProcessPendingDescriptions | process.c:200-216 | runs the next command of every idle queue and leaves the others alone |
| ProcessQueues.RunProcess | process.c:345-379 | queues a command that is not empty and processes all queues |
| ProcessQueueSpec.HandleFreesOne | process.c:85-108 | whatever children end while it asks, the handler frees one queue whose process has ended and returns, if there is one; and else waits for all that end, frees none, and returns if and only if no child is left alive |
| ProcessQueueSpec.ReturnsAtOnceIff | process.c:85-108 | it returns without waiting for another child if and only if a process of a queue has ended or no child is left alive |
| ProcessQueueSpec.ReturnsIff | process.c:85-108 | with the children that end while it asks, it returns if and only if one of all those is of a queue or none is left alive |
| ProcessQueueSpec.StallsWhileRunning | process.c:85-108 | a signal that is not for the end of a process of a queue does not let it return while a queue runs one |
| ProcessQueueSpec.StallsForOther | process.c:85-108 | an input on which it does not return until a further child ends |
| ProcessQueueSpec.ReapsAllIff | process.c:85-108 | it returns at once with every queue free whose process has ended if and only if there is exactly one such queue, or none and no child left alive |
| ProcessQueueSpec.LeavesTheSecond | process.c:98-105 | of two queues whose processes have ended it frees the first alone |
| ProcessQueues.HandleChild | process.c:72-109 | the loop does what the specification says on each of the three kinds of answer of waitpid: it frees one queue, stops with no child left, or asks again |
| AssocTables.LookUpIff | fns.c:272-292 | stopping at a larger key misses no entry |
| AssocTables.ChainIsMap | fns.c:236-316 | in a chain, making sets one key, deleting clears one, and nothing else changes |
| AssocTables.TableIsMap | fns.c:181-316 | any run on a table of any positive number of buckets behaves as a finite map |
| AssocNodes.Insque | fns.c:204-218 | links a node in after another |
| AssocNodes.Remque | fns.c:220-234 | unlinks a node |
| AssocNodes.MakeIn | fns.c:236-270 | the circular chain stays linked both ways and holds what the specification says |
| AssocNodes.DeleteIn | fns.c:294-316 | the chain stays linked both ways and loses just the entry of the key |
| AssocNodes.LookUpIn | fns.c:272-292 | returns the data of the key in the chain, if any |
| AssocNodes.AssocTable.constructor | fns.c:181-202 | every bucket is a sentinel linked to itself |
| AssocNodes.AssocTable.MakeAssoc | fns.c:236-270 | one bucket changes and the others are left alone |
| AssocNodes.AssocTable.LookUpAssoc | fns.c:272-292 | finds what the specification finds |
| AssocNodes.AssocTable.DeleteAssoc | fns.c:294-316 | one bucket changes and the others are left alone |

## Left out

- BarrierArray.ComputeBarrier: a write past the buffer is reported and otherwise left undone; what lies there is not used afterwards. Integers are unbounded; the coordinates of a region fit 16 bits. Making X barriers of the lines, and mapping edges to barrier directions, are left out.
- SelectionPipe.SuccessIsComplete: is about one transfer, one property and no timeout, because HandlePropertyDelete looks at neither the window nor the atom of the event (select.c:1663-1713). X errors and the five-second timeouts are left out at both ends.
- SelectionRead.ReadTransfer.ReadChunk: SkipChunk and allocation failures are left out; formats are bytes.
- SelectionRead.ReadTransfer.StartSelectionRead: X errors, formats and the data_start callback are left out.
- SelectionRead.ReadTransfer.FinishTransfers: is the body of the loop over all transfers that are being read; transfers do not share state.
- WriteTransfers.WriteTransfer.FreeTransfer: the record of a MULTIPLE request is left out; the queue is drained in SelectionOwner.
- SelectionOwner.Selections.HandleSelectionRequest: MULTIPLE and requests without a property are left out; the reasons for refusal are one parameter.
- SelectionOwner.AlwaysOrderly: MULTIPLE conversions and requests without a property (select.c:1197-1390) are left out. Transfers are entries of a sequence rather than linked objects, so that aliasing between them is not captured.
- BufferRuns.ReleasedExactlyOnce: targets end only when no callback waits for them, which is when they end in order (DestroyTargetKeepsIff). The records and callbacks of freed memory, and what reading them does, are not modelled.
- BufferActivity.HandleIdleNotifyOK: the back buffers of the target, which the code looks at first (picture_renderer.c:3437-3454), are in BackBuffers; a notice with the serial of one of them does not come here.
- BufferLists.Renderer.RunIdleCallbacks: one list stands for those linked per buffer and per target; callbacks are those of release helpers, which do not change the renderer's lists otherwise.
- BufferLists.Renderer.DestroyRenderTarget: callbacks are freed without being unlinked from the lists of their buffers (picture_renderer.c:1437-1446); the one list of the model forgets them. If none waits for the target there is no difference.
- PictureTargets.PictureTarget.SwapBackBuffers: the serial is a field of the target, where the source has one counter for all; steps of other targets change it (Elsewhere).
- BackBuffers.AgeCountsSwaps: is about the Present path; the copying swap (picture_renderer.c:900-935) is left out.
- ShmObjects.SharedMemory.CreatePool: failures to allocate memory or to create the resource change nothing and are left out.
- ShmObjects.SharedMemory.CreateBuffer: the format is taken to be supported. Pools and buffers are entries of maps, so that aliasing of their objects is not captured; failures to allocate memory or to create the renderer's buffer change nothing and are left out.
- FrameClockSpec.RunKeeps: the freeze and frame callbacks do not call back into the clock during an event; what they start afterwards is a later step. The cursor clock is left out.
- FrameClocks.FrameClock.HandleFrameDrawn: the frame callbacks, which run between the two things it does, are left out.
- Positioners.EndsWithinOutputIff: is for a scale of 1, as is the next.
- Positioners.ApplyConstraintAdjustment: is for a scale of 1; fractional scaling is left out, as is the parent's place on the screen, which is a parameter.
- CommandLine.RoundTrip: is for characters other than NUL, double quote and backslash; strings with backslashes are covered by ArgumentsAreMeaning and ProcessedIff.
- ProcessQueues.HandleChild: which children are there, have ended, and end while it asks are parameters; no process has the number 0. Signals and blocking them are left out, as is errno.
- AssocTables.TableIsMap: data are numbers where the source has pointers, and a missing key is None where the source returns NULL.
- Destroying tables, clocks, pools and queues frees memory and is left out.
- The garbage collection of drm_lease.c and the window cache of dnd.c are left out.
- Format tables, resource handling, requests of the Wayland protocol, region arithmetic, lists and allocation would only add easy members.
