# TickHub in Dafny

TickHub turns market ticks, which arrive out of order, into frames of fixed cadence in a shared-memory ring that
other processes read without locks. This project models its hard parts and proves what they promise, for every
input, every run and every interleaving.

**Projection.** `Schedule.dfy` says when whole-second bars close and phase frames are committed; a boundary goes
after the ticks before it (seconds: strictly before, phases: up to and including). `Live.dfy` is the live path
(heap, watermark, flush), `Replay.dfy` the sorted replay path and the normal form both reach. `Projector.dfy` is
the class whose fields and loops do this in place; its ghost state is the schedule and its ghost queue is what the
hand-written heap of `Heap.dfy` holds. `Frames.dfy` and `LiveFrames.dfy` say which anchors get frames, `FrameContent.dfy`
which ticks each row is made of, and `StateMeaning.dfy` and `BarMeaning.dfy` what its slots say about them, down to the
quote and the side each trade was given. `SymbolHistory.dfy` and `QuoteBook.dfy` are the 44-slot accumulators of
one symbol and its compacted quote buffer.

**Windows.** `Tracker.dfy`, `Tracker250.dfy` and `Baseline.dfy` are the 250 ms tracker with its 64-bar ring and
3601-slot prefix-sum rings, stale slots included. `MicroWindow.dfy`, `MicroTracker.dfy` and `Ring.dfy` are the
micro tracker with its quote and trade rings.

**Shared memory.** `Layout.dfy` and `Bits.dfy` are the addresses of a segment, `FrameStore.dfy` the commits and
history reads on its words, `FrameHistory.dfy` the same on values. `SeqLock.dfy` and `FlowControl.dfy` are state
machines: every load and store of shared memory is a step of its own, under sequential consistency.

**Around it.** `Merger.dfy` is the K-way merge of recorded streams, `Wire.dfy` and `Relay.dfy` the relay's format
and replication, `ControlLine.dfy` and `ChunkWindow.dfy` the on-demand worker. `Floats.dfy`, `Feed.dfy`,
`Modular.dfy` and `Results.dfy` hold floats with NaN, ticks and their order, slots and facts about division, and
results of operations that fail.

How quantities are modelled: timestamps are integers; prices and sizes are reals or NaN, with IEEE comparisons;
`max_frames` is a power of two, so that masking is a remainder (`Bits.MaskIsModulo`); Go's division truncates and
Python's floors. The session open of the 250 ms tracker, the square root and the rounding of prices to ticks are
parameters. A start anchor has been set before the first tick, and phase offsets lie in [0, cadence).

Where the code does less than its documentation says, the exact condition is proved, and an input shows the failure:
ring sizes below three frames (`FlowControl.TwoSlotsStall`, `FlowControl.OneSlotOvertaken`), 15-minute baselines stored
in bars after a long gap (`Tracker.StoredBaselines`, `Tracker.LongGapMisleads`), look-backs to a quote that pruning or
overwriting has dropped (`MicroWindow.QuoteAtExactWhen`, `MicroWindow.LullLosesQuote`), frame sizes that wrap around in
32 bits (`Layout.SoundExactlyInRange`, `Layout.WrappedConfig`), history requests that reach back to anchor 0
(`FrameHistory.HistoryIsExact`, `FrameHistory.BlankRowReturned`) and trades older than the retained quotes
(`QuoteBook.LocateIsPrevailing`, `QuoteBook.LateTradeMisled`). Names survive the handshake exactly if they have at most
16 bytes and no zero byte (`Wire.NameRoundTrip`), packets exactly if they are within 16 MiB (`Wire.PacketRoundTrip`).

## Model

| member | source | states |
|---|---|---|
| Live.LiveEqualsReplay | pkg/project/projector.go:853-910 | For any arrival order and any flush schedule in which a tick arriving after a flush is later than it, the whole scheduler state, committed frames included, is the one replay mode reaches on the stable sort (timestamp, quotes first, symbol, arrival) of the ticks that were due |
| Live.LiveFramesArePrefix | pkg/project/projector.go:629-657 | At every moment the frames committed live are an initial part of the frames replay mode commits for all arrived ticks |
| Live.FlushIsCanon | pkg/project/projector.go:853-910 | One flush, which interleaves draining the heap with closing seconds and committing frames, is the sorted normal form: cross every boundary before a tick, take the tick, then cross what is left |
| Live.FlushUnfolds | pkg/project/projector.go:854-899 | Each round of the flush loop, draining and then crossing, leaves strictly less work up to the target, and flushing from there is flushing from before |
| Live.ItemLessIsOrder | pkg/project/projector.go:24-36 | The order of the live heap is a strict weak order, total because arrival numbers differ |
| Live.InsertSorted | pkg/project/projector.go:42-45 | Inserting into the sorted queue keeps it sorted and adds exactly the new item |
| Replay.ReplayIsCanon | pkg/project/projector.go:515-617 | Replay mode, which crosses boundaries only when an accepted tick arrives, reaches the normal form once flushed |
| Replay.ReplayLags | pkg/project/projector.go:545-591 | A swallowed duplicate quote crosses nothing, yet catching up afterwards gives the same state |
| Replay.CanonConcat | pkg/project/projector.go:853-910 | Two consecutive windows are one: ticks up to a point and a flush there, then later ticks, is one run over all of them |
| Replay.CloseToTwice | pkg/project/projector.go:561-591 | Crossing the boundaries up to one limit and then up to a later one is crossing up to the later one |
| Replay.LateCrossesNothing | pkg/project/projector.go:551-560 | A tick that is late has no boundary left to cross before it |
| Replay.CrossKeepsAligned | pkg/project/projector.go:490-513 | Every boundary crossing keeps seconds on the lattice and phases ahead of them |
| Heap.MinHeap.PushItem | pkg/project/projector.go:42-45 | Keeps the heap order and adds exactly the pushed item |
| Heap.MinHeap.PopItem | pkg/project/projector.go:47-56 | Returns an item no other item is before, and removes exactly it |
| Heap.MinHeap.PeekItem | pkg/project/projector.go:58-60 | Shows the item that a pop would return |
| Heap.MinHeap.SiftUp | pkg/project/projector.go:62-71 | Restores the heap order when only one item may be before its parent; same items |
| Heap.MinHeap.SiftDown | pkg/project/projector.go:73-90 | Restores the order from a position on when only one item may be after its children; same items |
| Heap.MinHeap.Heapify | pkg/feed/merger.go:72 | Orders an arbitrary list of items into a heap of the same items |
| Heap.MinHeap.ReplaceRoot | pkg/feed/merger.go:88 | Replaces the root and restores the heap, as `heap.Fix` at index 0 does |
| Heap.MinHeap.RootIsLeast | pkg/project/projector.go:58-60 | In a heap the root is least |
| Projector.Projector.constructor | pkg/project/projector.go:151-277 | A new projector is the initial scheduler with an empty queue |
| Projector.Projector.SetStartAnchor | pkg/project/projector.go:329-348 | Sets every phase to its least lattice anchor after the start and the second boundary likewise |
| Projector.Projector.SetColdStart | pkg/project/projector.go:393-400 | Arms or clears the 15-bar cold-start countdown |
| Projector.Projector.SetWatermarkBuffer | pkg/project/projector.go:285-294 | A positive buffer switches to live mode |
| Projector.Projector.CloseSymbolSecondBar | pkg/project/projector.go:490-497 | Closes one second of one symbol: row, 4-slot ring, ring anchor, next second |
| Projector.Projector.CloseSecondBar | pkg/project/projector.go:499-513 | Closes the next second for all symbols that have not closed it |
| Projector.Projector.PhaseRow | pkg/project/projector.go:731-758 | The row of one symbol in a phase frame: bar of the anchor's whole second, state at the anchor |
| Projector.Projector.ClosePhase | pkg/project/projector.go:725-814 | Commits one phase frame: the scheduler advances exactly by that frame |
| Projector.Projector.PublishFrame | pkg/project/projector.go:790-812 | Appends the frame with its cold-start flag and counts the cold bars down on the last phase |
| Projector.Projector.EarliestPhase | pkg/project/projector.go:855-865 | The phase with the least due anchor, lowest index on a tie |
| Projector.Projector.CrossBoundaries | pkg/project/projector.go:561-591 | Crosses every due second and phase in boundary order |
| Projector.Projector.InitUnsetAnchors | pkg/project/projector.go:518-538 | Anchors still unset start from the first tick |
| Projector.Projector.FilterQuote | pkg/project/projector.go:545-549 | The duplicate-quote filter, with its baseline |
| Projector.Projector.IngestSorted | pkg/project/projector.go:515-617 | One tick in sorted order, in live and in replay mode |
| Projector.Projector.DrainHeap | pkg/project/projector.go:870-876 | Pops and takes exactly the queued ticks up to a limit, in order |
| Projector.Projector.Flush | pkg/project/projector.go:853-910 | Live: the specified flush of queue and scheduler; replay: every boundary up to the target |
| Projector.Projector.IngestTick | pkg/project/projector.go:620-657 | Live: queue the tick, flush at once without a watermark; replay: ingest it directly |
| Projector.Projector.Enqueue | pkg/project/projector.go:642-647 | The heap holds exactly the sorted queue with the new tick inserted |
| Schedule.CloseTo | pkg/project/projector.go:561-591 | After crossing boundaries up to given limits none is left |
| Schedule.Earliest | pkg/project/projector.go:855-865 | The earliest due phase, and none missed |
| Schedule.FirstAnchor | pkg/project/projector.go:331-336 | The first anchor is after the start |
| Frames.FirstAnchorIsLeast | pkg/project/projector.go:331-336 | It is on the phase's lattice, within one cadence, and the least such anchor |
| Schedule.CrossDecreases | pkg/project/projector.go:854-899 | Every boundary crossing decreases the work left |
| Frames.EveryAnchorOnce | pkg/project/projector.go:329-348 | After a window of any ticks flushed to `end`, each phase has committed every lattice anchor in (start, end] exactly once and no other, all in (anchor, phase) order |
| LiveFrames.EveryAnchorOnceLive | pkg/project/projector.go:545-617 | The same after any live run whatever: any arrivals, ticks behind the last flush too, and any flushes, repeated and backward ones too |
| LiveFrames.FramesOnlyGrow | pkg/project/projector.go:545-617 | No arrival and no flush takes a committed frame back or changes it |
| Frames.FrameCount | pkg/project/projector.go:966-968 | The number of frames is the number of phase anchors in (start, end], whatever the ticks |
| Frames.ColdStartFlags | pkg/project/projector.go:796-812 | Exactly the frames committed before the last phase has committed k bars carry the cold-start flag |
| FrameContent.FramesCarryTheirTicks | pkg/project/projector.go:731-758 | The frame at anchor A carries in slots 0..35 the bar of exactly the ticks in the whole second before floor(A) and in slots 36..43 the state after exactly the ticks up to A |
| FrameContent.ExtremeOffsetsInSecond | pkg/project/window.go:941-1073 | Slots 30..33 of a closed one-second bar are unset or lie in [0, 1 s) |
| BarMeaning.EnteredIsJoined | pkg/project/window.go:816-938 | For ticks in time order, what enters the bar of a second is exactly the symbol's accepted quotes and priced trades in it; each trade carries the mid of the quote that prevailed in the full history and the side that mid and the trades before decide |
| BarMeaning.SumSlotsMean | pkg/project/window.go:896-967 | Slots 0..12 are the counts and direct sums, by side, off-market and against the mid, over exactly the ticks that entered, and 28 and 29 the spread of exactly their trade prices |
| BarMeaning.StateSlotsMean | pkg/project/window.go:968-1058 | Slots 13..15, 22..27, 34 and 35 are age, prices, sizes and time of the last quote accepted before the second, the number of venues that last showed its bid and its ask, the last trade price, and the counts so far |
| BarMeaning.ExtremeSlotsMean | pkg/project/window.go:941-1066 | Its price extremes are attained greatest and least prices of those ticks, its time slots the offsets of the first tick that reached them, NaN and -1 without ticks |
| SymbolHistory.History.AcceptQuote | pkg/project/window.go:753-767 | Refuses invalid and repeated quotes; a NaN size never repeats |
| SymbolHistory.History.RecordQuoteState | pkg/project/window.go:706-745 | Last quote, first quote, venue table and compacted quote buffer |
| SymbolHistory.History.CompactBuffer | pkg/project/window.go:731-744 | Compaction keeps everything from the last quote older than 100 ms on |
| SymbolHistory.History.IngestQuote | pkg/project/window.go:785-814 | Quote state and the bar's quote accumulators |
| SymbolHistory.History.MoveQuotePtr | pkg/project/window.go:821-849 | The moving cursor and its binary-search fallback |
| SymbolHistory.History.ClassifyTrade | pkg/project/window.go:816-886 | Lee-Ready side and reference mid of a trade |
| SymbolHistory.History.IngestTrade | pkg/project/window.go:896-938 | Classification and the bar's trade accumulators |
| SymbolHistory.History.CloseBar | pkg/project/window.go:941-1073 | Slots 0..35 of the closed bar from its accumulators, which are then reset |
| StateMeaning.TerminalSlotsMean | pkg/project/window.go:1075-1090 | Slots 36..43 of a frame row are bid, ask, sizes and time of the last quote accepted up to the anchor, the price of the last priced trade and how many of each there were; NaN where there is none |
| StateMeaning.FoldMeans | pkg/project/window.go:700-814 | After any ticks in any order the session state is that of the last accepted quote, the last priced trade and the last quote of every venue |
| StateMeaning.TradeMidIsReference | pkg/project/window.go:816-886 | In time order every trade is measured against the quote prevailing 1 ms before it in the full history, or the newer one of its own venue, whatever compaction has dropped |
| StateMeaning.SideIsGiven | pkg/project/window.go:860-886 | Its side is decided by that mid, then by the trade before, then by the side before |
| QuoteBook.LocateIsPrevailing | pkg/project/window.go:821-849 | The quote found is the last one of the whole history at or before the target whenever the retained quotes reach back to it, and otherwise the first quote ever |
| QuoteBook.LateTradeMisled | pkg/project/window.go:731-849 | An input where it is not: after 8194 quotes and one trade, a trade more than 3 s behind is matched with the first quote ever instead of the one that prevailed |
| QuoteBook.ReferenceQuoteIsExact | pkg/project/window.go:731-849 | For quote streams in time order of any length and trades at most about 100 ms behind, the reference quote is exact whatever was compacted away |
| QuoteBook.RunHolds | pkg/project/window.go:731-744 | After any run the buffer is the end of the history and what was dropped is more than 100 ms behind |
| Tracker.BucketVolumes | pkg/project/window.go:1243-1318 | Each closed bucket's lit buy and sell volumes are the sums of the qualifying trades in its quarter second |
| Tracker.AdvanceTwice | pkg/project/window.go:1218-1355 | Absent a jump, advancing in two steps reaches the same tracker and bar ring as advancing at once |
| Tracker.VolumeIsConserved | pkg/project/window.go:1218-1389 | Lit volume of all trades equals the volume in all columns plus the open bucket |
| Tracker.AdvanceColumns | pkg/project/window.go:1218-1318 | Which columns an advance closes; after a jump the volume of the open bucket lands in the first column after the gap |
| Tracker.RingHoldsLastColumns | pkg/project/window.go:1286-1341 | In any stream the last 64 contiguously closed columns are resident in `Bars[c & 63]` with their volumes, and their baselines are direct sums from the column the prefix slot was last stored before |
| Tracker.StoredBaselines | pkg/project/window.go:1291-1333 | A stored baseline is the direct 15-minute sum if and only if nothing was traded between that column and the window, or the whole sum does not exceed 1 |
| Tracker.BaselinesAfterGap | pkg/project/window.go:1232-1236 | So it is the direct sum always without a long gap, and from 3600 columns after one on |
| Tracker.LatestBaselines | pkg/project/window.go:1302-1316 | The latest baselines are the direct sums after any stream, right after a long gap too |
| Tracker.LongGapMisleads | pkg/project/window.go:1232-1333 | One trade, ten columns and a gap of almost 14 hours: 63 of the 64 bars claim 3 trade steps in 15 minutes without trades |
| Baseline.PushTracks | pkg/project/window.go:1291-1300 | Closing a column keeps every slot the total before the column it was stored before |
| Baseline.WindowIsSum | pkg/project/window.go:1302-1311 | What is taken from the ring is the direct sum from the column the slot was stored before |
| Tracker250.Tracker250ms.AdvanceTo | pkg/project/window.go:1218-1355 | Follows the specified advance exactly in every case, long gaps and stale slots included; SeqLock counter and header |
| Tracker250.Tracker250ms.CloseSums | pkg/project/window.go:1258-1311 | The loop body stores the column into the four prefix rings and takes both baselines from them |
| Tracker250.Tracker250ms.StoreBar | pkg/project/window.go:1319-1341 | Writes the bar into its slot and back-fills earlier bars on the first valid quote |
| Tracker250.Tracker250ms.OnQuote | pkg/project/window.go:1358-1368 | Advances, then records the quote |
| Tracker250.Tracker250ms.OnTrade | pkg/project/window.go:1372-1386 | Advances, then adds lit volume on the side the mid decides |
| MicroWindow.QuoteAtExactWhen | pkg/project/window.go:524-550 | Every look-up after any run: bid, ask and mid of the last quote at or before that time in the full history if and only if that quote is not gone, or the one standing in has the same prices; before all quotes the first one counts |
| MicroWindow.RunKeepsQuotes | pkg/project/window.go:375-400 | The kept quotes are exactly the stored ones that are the last, or have fewer than 4096 after them and were at most 35 s behind the greatest timestamp when the last was stored |
| MicroWindow.StoredAgrees | pkg/project/window.go:375-382 | Leaving out repeats changes no bid, ask or mid at any time |
| MicroWindow.LullLosesQuote | pkg/project/window.go:396-400 | Two quotes more than 35 s apart: every look-up into the lull answers with the second |
| MicroWindow.WindowSumsAreExact | pkg/project/window.go:607-635 | With at most 1024 trades in the window, the sums and the count are the direct sums over every trade ever accepted |
| MicroWindow.CandidateIsPrevailing | pkg/project/window.go:403-436 | The first candidate of the trade classification is the quote prevailing 1 ms before the trade, or the oldest kept one if that is gone |
| MicroWindow.RunKeepsEnd | pkg/project/window.go:506-520 | Over any run the kept trades are the end of the history, and whatever was dropped was over 10 s old or had 1024 trades after it |
| MicroTracker.MicroTracker.SeedQuote | pkg/project/window.go:309-330 | Forgets all ticks and starts from a seed |
| MicroTracker.MicroTracker.OnQuoteWithExch | pkg/project/window.go:338-400 | One quote: seed, venue table, deduplication, ring, pruning |
| MicroTracker.MicroTracker.ClassifyTrade | pkg/project/window.go:403-477 | Side of a trade from two candidate quotes, the tick rule and the side before |
| MicroTracker.MicroTracker.OnTradeWithExch | pkg/project/window.go:485-520 | One trade: classification, ring, pruning |
| MicroTracker.MicroTracker.LookUp | pkg/project/window.go:524-550 | The ring and binary search compute the specified look-up |
| MicroTracker.MicroTracker.ComputeSnapshot | pkg/project/window.go:554-650 | Brings a published record up to date: clock, look-backs, quote volatility and window sums, and what stays as it was before a first timestamp or tick |
| MicroTracker.MicroTracker.SumWindow | pkg/project/window.go:607-635 | The backward loop with early exit |
| Ring.Ring.Push | pkg/project/window.go:386-394 | Appends, or overwrites the oldest element when full |
| Ring.Ring.DropFirst | pkg/project/window.go:397-400 | Drops the oldest element |
| SeqLock.ReadsAreCompleteWrites | pkg/shm/producer.go:381-408 | In every field-by-field interleaving of one writer and any readers, a read leaving by the equal-and-even path is exactly one complete write with its number, and successful reads never go back in write order |
| SeqLock.EqualNumbersEqualFields | pkg/shm/producer.go:381-408 | Two successful reads of a cell with the same number hold the same fields |
| SeqLock.SuccessfulRead | pkg/relay/server.go:326-339 | A reader that sees its number again has copied the last complete write |
| SeqLock.ReaderStepKeeps | python/tickhub/shm.py:647-689 | Every reader step keeps the invariant, the copied counter word included |
| SeqLock.WriterStepKeeps | pkg/shm/producer.go:381-408 | Every writer step keeps the invariant |
| FlowControl.RowsAreExact | pkg/shm/producer.go:445-618 | In every interleaving the rows the consumer has copied are exactly the committed rows of their phase, symbol and anchor, none skipped or repeated, and every committed frame at or after the last read anchor is whole in its slot, although only phase 0 waits |
| FlowControl.NeverStalls | pkg/shm/producer.go:465-513 | Producer and consumer are never both blocked with at least three slots |
| FlowControl.TwoSlotsStall | pkg/shm/producer.go:472-486 | With two slots phase 0 never commits and nothing is ever read |
| FlowControl.AdmittedFromStart | pkg/shm/producer.go:472-486 | The first frame of phase 0 is admitted exactly if there are not two slots |
| FlowControl.OneSlotOvertaken | pkg/shm/producer.go:455-457 | With one slot, whatever the phases, symbols and features, there is a run from the start in which the consumer logs, for the first anchor of phase 0, the row committed for the second |
| FlowControl.OvertakenRowDiffers | pkg/shm/producer.go:455-457 | That is not the row committed for the first anchor whenever any feature differs |
| FlowControl.AdmitBounds | pkg/shm/producer.go:472-486 | The wait lets phase 0 go on exactly while its frame stays a ring less three ahead of the rounds read |
| FlowControl.BeginAllFindsFirsts | python/tickhub/shm.py:610-613 | Floor division from the first anchor of all finds the first anchor of every phase |
| FlowControl.ObservedIsPublished | python/tickhub/shm.py:840-856 | A polled symbol anchor is never above the target, and equals it only when the row is published |
| FlowControl.StepKeepsControl | python/tickhub/shm.py:893-908 | Every step, commit_read included, keeps the bound between the phases and the consumer |
| FlowControl.StepKeepsMemory | pkg/shm/producer.go:590-618 | Every store keeps unreleased frames whole and published rows readable |
| FlowControl.EndRowKeepsCopied | python/tickhub/export.py:88-115 | The consumer loop reads phase by phase and symbol by symbol, each row once |
| FlowControl.SlotClash | pkg/shm/producer.go:585-586 | Two anchors of a phase share a slot only a whole ring apart |
| Bits.MaskIsModulo | pkg/shm/producer.go:585 | Masking with a power of two less one is the remainder |
| Bits.PowerTest | pkg/shm/producer.go:67-69 | The test on `max_frames` accepts exactly the powers of two |
| Layout.CreateGeometry | pkg/shm/producer.go:66-110 | Accepts exactly the specified configurations; offsets, strides and total size |
| Layout.CellsAreDisjoint | pkg/shm/producer.go:84-108 | Global header, directory, snapshots, configuration, 250 ms rings and every header word, symbol anchor and feature of every frame occupy disjoint bytes |
| Layout.CellsInSegment | pkg/shm/producer.go:108-110 | Every cell lies inside the segment |
| Layout.FramesAligned | pkg/shm/producer.go:92-94 | Every frame starts on a 64-byte line |
| Layout.FrameFitsStride | pkg/shm/producer.go:91-94 | A frame fits its stride exactly if its size does not wrap around in 32 bits |
| Layout.WrappedFramesOverlap | pkg/shm/producer.go:91-94 | If it wraps, the first header word of the second frame overlaps a cell of the first |
| Layout.ApartExactlyInRange | pkg/shm/producer.go:84-108 | With at least two frames all cells lie apart if and only if no frame size wraps around |
| Layout.SoundExactlyInRange | pkg/shm/producer.go:84-110 | However many frames, all cells lie inside the segment and apart if and only if no frame size wraps around |
| Layout.WrappedConfig | pkg/shm/producer.go:66-110 | A configuration that is accepted and whose frames overlap |
| Layout.FixedBounds | pkg/shm/layout.go:9-22 | The fixed regions end before the next one starts and before the data area |
| FrameHistory.HistoryIsExact | pkg/shm/producer.go:776-825 | After any run of commits the history of a symbol is exactly its last min(n, slots, committed) rows in order; only a request back to anchor 0 also returns a blank row if that slot was never used |
| FrameHistory.BlankRowReturned | pkg/shm/producer.go:776-825 | An input where the blank row comes back: one frame at anchor `cadence` and two rows asked for |
| FrameHistory.LatestIsNewest | pkg/shm/producer.go:793-794 | The newest anchor of the phase is found from the last anchor written in any phase |
| FrameHistory.SerialIsBulk | pkg/shm/producer.go:517-618 | Committing symbol by symbol equals one bulk commit exactly if the slot held another anchor or already the fresh header |
| FrameHistory.RecentAreResident | pkg/shm/producer.go:585-618 | The last ring-full of commits is resident, whole |
| FrameStore.FrameStore.constructor | pkg/shm/producer.go:108-116 | A new segment holds blank frames |
| FrameStore.FrameStore.CommitPhaseFrame | pkg/shm/producer.go:568-618 | Changes one slot of one ring to the bulk frame and nothing else in any ring |
| FrameStore.FrameStore.CommitSymbolMetrics | pkg/shm/producer.go:517-563 | Changes one row and stamp of one slot, the header only if it held another anchor |
| FrameStore.FrameStore.ReadHistoryBars | pkg/shm/producer.go:776-825 | Reads exactly the specified bars out of the words of the segment |
| FrameStore.FrameStore.CommitNext | pkg/shm/producer.go:568-618 | Committing and finalising the next frame extends the run the ring holds and leaves other phases alone |
| FrameStore.FrameStore.ReadCommitted | pkg/shm/producer.go:776-825 | After a run of commits on the words, the history read back is exactly the last rows, whichever phase wrote last |
| FrameStore.FrameStore.CommitAllThenRead | pkg/shm/producer.go:568-825 | A whole run of commits on a new segment, read back |
| FrameStore.IndexDistinct | pkg/shm/producer.go:534-556 | Distinct cells are distinct words of the segment |
| Merger.EntryOrder | pkg/feed/merger.go:16-27 | The merge order is a strict weak order |
| Merger.Merger.constructor | pkg/feed/merger.go:54-74 | Opens every reader; the heap holds exactly the heads; an error of an empty reader is kept |
| Merger.Merger.Next | pkg/feed/merger.go:77-98 | Takes a head no other head is before and advances exactly that reader; false only when all are used up; errors are kept |
| Merger.ReadAll | cmd/tickhub/worker.go:236-283 | Calling `Next` until it returns false yields a merge of the streams |
| Merger.MergeIsOrdered | pkg/feed/merger.go:16-27 | The merge of ordered readers is in order, quotes before trades at equal timestamps |
| Merger.MergeKeepsStreams | pkg/feed/merger.go:77-98 | What the merge holds from a reader is exactly that reader's stream, in its order |
| Merger.MergeLength | pkg/feed/merger.go:77-98 | The merge is as long as all streams together |
| Merger.MergeReadersExist | pkg/feed/merger.go:77-98 | Every tick of the merge comes from one of the readers |
| Feed.TickNotLaterTransitive | pkg/feed/merger.go:16-27 | Ticks that the order cannot separate form classes |
| Relay.ReplicaFollowsSource | pkg/relay/client.go:150-247 | After any anchor commit the replica's snapshot and micro tables are what the server last read although only changed cells are sent, the sent slots are in place as sent, no number is missing and every snapshot count matches |
| Relay.ReadsAreLater | pkg/relay/server.go:317-339 | Of two successful SeqLock reads of a cell in any interleaving the second is later in the sense that result needs |
| Relay.AnchorReplicates | pkg/relay/server.go:194-258 | One streamed anchor brings a synchronised replica up to date |
| Relay.FinalFlushReplicates | pkg/relay/server.go:261-282 | So does the final flush at close |
| Relay.OneSymbol | pkg/relay/server.go:206-226 | Sending what changed of one symbol updates its cells and no other |
| Relay.StreamServer.Stream | pkg/relay/server.go:194-258 | The server loop body emits exactly the specified messages |
| Relay.StreamServer.SendSymbols | pkg/relay/server.go:204-227 | The delta by SeqLock number, with the baseline on the first anchor |
| Relay.CaughtIsSafe | pkg/relay/server.go:197-202 | Catching up never goes back nor past the last anchor and ends at most a ring less two cadences behind it, so its slot is not written again before two more anchors |
| Relay.Replica.HandleMessage | pkg/relay/client.go:166-247 | The client's handling of each message type |
| Relay.Replica.WriteRawSlot | pkg/shm/producer.go:676-691 | Copies a slot of the right size; anything else is an error |
| Wire.StreamRoundTrip | pkg/relay/protocol.go:230-271 | Any list of packets within 16 MiB is read back from the concatenation of what was written |
| Wire.PacketRoundTrip | pkg/relay/protocol.go:230-271 | A packet comes back as written exactly if it is within the limit |
| Wire.Pipe.WritePacket | pkg/relay/protocol.go:230-246 | Appends header and payload |
| Wire.Pipe.ReadPacket | pkg/relay/protocol.go:249-271 | Takes one packet off the stream, or reports end, short read or corruption |
| Wire.HandshakeRoundTrip | pkg/relay/protocol.go:42-140 | A handshake with matching counts and good names is decoded to itself |
| Wire.NameRoundTrip | pkg/relay/protocol.go:62-65 | Exactly the names of at most 16 bytes without a zero byte survive |
| Wire.EncodeHandshake | pkg/relay/protocol.go:42-74 | The encoder loop writes the specified bytes |
| Wire.DecodeHandshake | pkg/relay/protocol.go:77-140 | The decoder loop parses them, with its error cases |
| Wire.FrameSlotRoundTrip | pkg/relay/protocol.go:189-209 | Frame slots are decoded to themselves |
| Wire.FrameSlotIsInjective | pkg/relay/protocol.go:189-209 | And decoding loses nothing |
| Wire.AnchorCommitRoundTrip | pkg/relay/protocol.go:212-227 | Anchor commits are decoded to themselves |
| Wire.SnapshotRoundTrip | pkg/relay/protocol.go:143-163 | Snapshot payloads are decoded to themselves |
| Wire.GetPut | pkg/relay/protocol.go:44-51 | Big-endian numbers read back modulo what fits |
| Wire.PutGet | pkg/relay/protocol.go:81-90 | And their bytes are unique |
| ControlLine.CountsAreOwn | cmd/tickhub/worker.go:107-164 | With one client and any interleaving, requests are serviced at most once and in increasing order, and counts returned for a request were computed from its own payload, whatever timed out before |
| ControlLine.ClientStepKeeps | python/tickhub/shm.py:942-984 | Every client step keeps the invariant |
| ControlLine.WorkerStepKeeps | cmd/tickhub/worker.go:94-164 | Every worker step keeps the invariant |
| ChunkWindow.ChunkCount | cmd/tickhub/worker.go:216-320 | A chunk without errors and with zero watermark reports exactly the number of phase anchors in (start, end], whatever the ticks |
| ChunkWindow.WindowIsBetween | cmd/tickhub/worker.go:236-300 | On a merged stream in time order the nested loops ingest exactly the ticks in [start, end] |
| ChunkWindow.SplitStream | cmd/tickhub/worker.go:236-300 | The warm-up sweep and the window loop |

## Left out

- Relay.ReplicaFollowsSource: for a source of several phases the server derives one slot from one anchor, so a sent slot need not hold that anchor in the other phases; the contract says only that slots arrive as sent.
- ChunkWindow.ChunkCount: counts frames with the scheduler that projects all symbols; restricting projection to the requested symbol changes rows, not when frames are committed.
- FlowControl.RowsAreExact: covers whole-frame commits; the single-symbol worker path, which waits only for symbol 0 of phase 0, is not part of it.
- Projector.Projector.constructor: leaves out the 250 ms and micro trackers, the snapshot tables and the 5-feature histories, which the class here does not have.
- Projector.Projector.CloseSecondBar: covers the loop over all symbols; the branch for a single target symbol is left out.
- Projector.Projector.ClosePhase: leaves out advancing the 250 ms trackers to the anchor and the commits of a single target symbol; frames do not depend on either.
- Projector.Projector.PublishFrame: leaves out the publish latency, the first and last anchor and the frame counter kept for monitoring.
- Projector.Projector.IngestSorted: leaves out the snapshot update and the calls into the 250 ms trackers.
- Projector.Projector.IngestTick: leaves out the snapshot update that live mode makes at once, before the tick is queued.
- FrameStore.FrameStore.CommitPhaseFrame: leaves out the wait in phase 0 and its error; the wait is a step of `FlowControl`.
- FrameStore.FrameStore.CommitSymbolMetrics: leaves out the wait for symbol 0 of phase 0.
- SeqLock.ReadsAreCompleteWrites: says nothing about the best-effort copy after 1000 failed attempts, nor about a segment left with an odd counter by a crash.
- The projector's calls into the 250 ms and micro trackers and the snapshot tables: both trackers are modelled on their own.
- The single-symbol branches of the projector (`targetSymbol`), seeding from history, and the 5-feature mode with its global commit order.
- The captured as-of rows of a phase, which the code never sets.
- The frame header as seen by a concurrent reader: the consumer decides by the per-symbol anchors, so only those are steps of the flow-control model.
- The cold-start bit of a frame header in memory: `Frames.ColdStartFlags` says which frames carry it.
- Timeouts, heartbeats, liveness tests and wall-clock pacing; a timeout appears only as giving up, or as a run that ends.
- Weak memory ordering and the C atomics.
- Floating-point rounding and infinities, integer overflow of timestamps and 64-bit counters, and segments beyond 2^63 bytes.
- Log returns and the seeding of price history.
- The choice of the session open from the time zone.
- Locally computed micro snapshots of a relay client: they are arbitrary values until the first remote one arrives.
- Decoding errors inside the replication loop: messages are values there, and their codecs are treated in `Wire`.
- Recorder, playback, feed manager, WebSocket client, HTTP metrics, configuration files, Parquet and compression, memory mapping and unlinking.
