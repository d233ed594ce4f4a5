# A verified model of a fountain-coded transfer over sealed UDP

This project models, in Dafny, the logic of a single-file transfer tool: a file is split into
blocks, each block is sprayed as fountain-code symbols in AEAD-sealed UDP datagrams, lost symbols
are replaced by fresh ones rather than retransmitted, and an adaptive controller sets the sending
rate. The theorems are about whole runs: any number of reports, any schedule of the kernel, any
loss, reordering and duplication on the symbol plane, any interleaving of sender and receiver.

`dafny verify dfyconfig.toml` checks everything.

## How it is organised

| file | content |
|---|---|
| `Prelude.dfy`, `Bytes.dfy` | shared vocabulary; fixed-width integers as bytes |
| `Layout.dfy` | how a file splits into blocks |
| `Datagram.dfy`, `Sealed.dfy`, `Plane.dfy` | the plaintext and the sealed datagram formats |
| `ReplayWindow.dfy` | the 4096-bit anti-replay ring |
| `RateController.dfy`, `RateRuns.dfy` | the rate controller, and what it does over whole runs |
| `RateBottleneck.dfy`, `RateRatchet.dfy`, `RateClosedLoop.dfy` | the controller in closed loop with a lossy bottleneck |
| `Pacer.dfy`, `LossEstimator.dfy`, `Feedback.dfy` | pacing, repair sizing, the feedback drain |
| `PacedRuns.dfy` | what the ceiling does to the pacing rate over whole runs |
| `EncoderCache.dfy`, `Udp.dfy`, `Wire.dfy` | encoder cache, batching and segmentation, control frames |
| `Transfer.dfy` | sender, receiver, network and control stream as one state machine |
| `TransferSafety.dfy`, `TransferProgress.dfy`, `TransferSymbols.dfy` | its theorems: safety, accounting, symbols and rounds |
| `TransferReports.dfy`, `TransferLiveness.dfy` | the receiver's reports; no dead ends |
| `TransferLoops.dfy`, `LateArrival.dfy` | the hot loops as code; a run with reordering |

Objects the program updates in place (replay window, sealer, opener, rate controller, pacer, loss
estimator, encoder cache, feedback state, receiver) are classes whose methods are proved against
functions on values; the run theorems are lemmas about those functions. The round loop of the
sender and the collection loop of the receiver run concurrently and are the steps of one state
machine.

## What is assumed

- The fountain code is any pair of functions: an encoding symbol is a function of the block's
  bytes and the symbol id, and a decoder's answer is a function of the packets fed to it. `Sound`
  (genuine packets decode to the block or not at all), `KeepsLength` (a decoder returns as many
  bytes as the block has) and `Decodes` (a threshold number of distinct symbols suffices) are
  hypotheses of the theorems that need them. Repair packets number `s` to `s + n` of a block of
  `k` source symbols carry the ids `k + s` to `k + s + n`.
- The AEAD is ideal: any length-preserving cipher, and opening succeeds only on a (nonce,
  associated data, ciphertext, tag) that was sealed. The construction is the one of section 2.8 of
  RFC 8439; the window follows section 2 of RFC 6479 and the check of section 3.4.3 of RFC 4303.
- The hash is any function. Clocks, the network, the kernel, drops and disk errors are parameters.
- Rates, losses and times are exact reals with the program's decimal constants. Counters are
  unbounded; where 64 bits matter the bound is stated.

## Where the code and its documentation differ

The model follows the code.

- The adaptive ceiling is described as a cap on pacing. It is one if and only if it is at least
  100 Mbit/s (`CapIsKeptExactly`): the pacer starts at 100 Mbit/s whatever the ceiling and is told
  only of changes of the controller's rate. A controller that starts at a lower ceiling and sees no
  reason to cut never changes, so the excess can last the whole transfer
  (`LowCapIsExceededThroughout`, `LowCapWitness`).
- A super-buffer is said to stay under 65000 bytes. It does exactly when one datagram does
  (`BatchFits`); a symbol size above 64956 in sealed mode breaks it (`SymbolSizeLimit`,
  `OversizedDatagram`). Above 65491 the segment size no longer fits the 16 bits it is given with
  segmentation offload.
- The frame reader refuses bodies above 1 MiB, the writer does not: a stream of frames is read back
  if and only if every body respects the limit (`StreamRoundTrip`).
- The loss floor is said to snap down to any cleaner sample; it moves 30% of the way and never
  arrives (`FloorBetween`, `FloorNeverSnaps`).
- Congestive loss is said not to contaminate the floor. The first measurement becomes the floor
  whatever it contains, so a link slower than the starting rate of 100 Mbit/s taints it
  (`SlowLinkTaintsFloor`); `FloorBoundExact` gives the links on which the floor stays bounded.
- The band between clean and congested is said never to hold the rate; `MiddleBand` says exactly when
  it does, startup included (`MiddleBandInStartup`).
- Interval loss is described as exact wire loss; it is if and only if as many datagrams of the
  interval come in after its report as stragglers of earlier intervals came in before it
  (`IntervalLossIsExact`; `ReorderedIsNotLost` is a run where it is not).
- The sealed overhead is documented as 24 bytes; it is 36, plus 4 for the block index.

## Model

| member | source | states |
|---|---|---|
| `Blocks.New` | src/blocks.rs:20-31 | construction fails exactly on a zero size or when the block count does not fit 32 bits; otherwise the layout is valid and has the given sizes |
| `Blocks.BlockBounds` | src/blocks.rs:34-51 | every block is non-empty and inside the file, only the last may be short, symbol counts fit 32 bits and no 64-bit arithmetic overflows |
| `Blocks.SymbolsCoverBlock` | src/blocks.rs:48-51 | the source symbols of a block cover its bytes, and one fewer would not |
| `Blocks.RangesDisjoint` | src/blocks.rs:34-39 | the byte ranges of different blocks do not overlap |
| `Blocks.Partition` | src/blocks.rs:34-39 | each byte of the file lies in exactly one block, the one found by division |
| `Blocks.RangesDetermineFile` | src/blocks.rs:34-45 | two files that agree on every block range are equal |
| `Datagrams.DecodeExact` | src/datagram.rs:59-80 | decoding accepts exactly the encodings under its own tag and returns what was encoded |
| `Datagrams.EncodedFields` | src/datagram.rs:59-64 | magic, tag, block index and payload stand in this order, the numbers least significant byte first |
| `Datagrams.OtherTagDropped` | src/datagram.rs:71-74 | a datagram of another session is dropped |
| `Datagrams.FlowOpenExact` | src/datagram.rs:34-42 | the only byte string taken for a flow-open of a tag is that tag's flow-open |
| `Datagrams.DataIsNeverFlowOpen` | src/datagram.rs:21-42 | no data datagram of a valid layout is ever taken for a flow-open, under any tag |
| `Datagrams.EncodeInto` | src/datagram.rs:59-64 | appends one datagram that decodes back, leaving the buffer before it alone |
| `Planes.WireLenExact` | src/datagram.rs:123-128 | every datagram of a plane has exactly the announced wire size |
| `Planes.SymbolSizeLimit` | src/send.rs:378-381 | the super-buffers respect the kernel's limit exactly for symbol sizes up to 64956 sealed, 64980 plain, and the segment size fits 16 bits exactly up to 65491 and 65515 |
| `Planes.PlanesDoNotMix` | src/datagram.rs:147-153 | no sealed datagram parses as plaintext or as a flow-open, and no plaintext datagram opens as sealed |
| `Replay.MaskTest` | src/sealed.rs:304-312 | the mask test of a word reads exactly the bit of the slot |
| `Replay.SameSlot` | src/sealed.rs:304-307 | two sequence numbers share a slot exactly when they agree modulo 4096 |
| `Replay.NoAlias` | src/sealed.rs:304-307 | inside one window width no two sequence numbers share a slot |
| `Replay.ReplayWindow.WouldAccept` | src/sealed.rs:264-273 | accepts a number exactly when it was never accepted and is not 4096 or more behind the highest accepted |
| `Replay.ReplayWindow.Commit` | src/sealed.rs:275-289 | adds the number to the accepted set and nothing else, through the clear-on-advance and the slot aliasing |
| `Replay.ReplayWindow.ClearRangeForAdvance` | src/sealed.rs:292-302 | clears the slots of the newly covered numbers and keeps those of the rest of the window |
| `Replay.ReplayWindow.IsSet` | src/sealed.rs:309-312 | reads whether the slot of a number is on |
| `Replay.ReplayWindow.Set` | src/sealed.rs:314-317 | turns exactly one slot on |
| `Replay.ReplayWindow.Clear` | src/sealed.rs:319-322 | turns exactly one slot off |
| `Replay.ReplayWindow.SeqSpan` | src/sealed.rs:179-182 | one more than the highest accepted number; span minus accepted counts exactly the numbers below it never accepted |
| `Replay.LostBelowSpan` | src/sealed.rs:176-182 | the loss measure is exact: the numbers missing below the span are span minus accepted |
| `Sealed.NonceInjective` | src/sealed.rs:56-61 | different sequence numbers give different nonces |
| `Sealed.NonceBytes` | src/sealed.rs:56-61 | the nonce is four zero bytes and then the number, most significant byte first |
| `Sealed.WireParses` | src/sealed.rs:202-244 | the opener's cuts of a sealed datagram recover tag, number, associated data, body and AEAD tag, sealed under the number's nonce with the whole header as associated data |
| `Sealed.PlainParses` | src/sealed.rs:242-243 | the opened body carries the block index and payload unchanged |
| `Sealed.OpenExact` | src/sealed.rs:149-174 | of all byte strings exactly the sealed datagrams with a still acceptable number open, each as itself |
| `Sealed.RunInv` | src/sealed.rs:94-96 | over every session numbers are handed out once, in order, and only sealed ones are ever accepted |
| `Sealed.EveryNumberIsUsed` | src/sealed.rs:94-96 | over every session each sealed datagram and each burned number takes exactly one number |
| `Sealed.NoncesNeverRepeat` | src/sealed.rs:89-96 | in a session no nonce is used twice |
| `Sealed.OpensAtMostOnce` | src/sealed.rs:149-174 | whatever an adversary delivers, no sealed datagram opens twice |
| `Sealed.AcceptedWasDelivered` | src/sealed.rs:146-174 | every accepted number arrived on the wire form of its own datagram, so forgeries never move the window |
| `Sealed.FirstArrivalOpens` | src/sealed.rs:264-273 | the first arrival of a sealed datagram opens if and only if the window has not moved 4096 or more past it |
| `Sealed.SymbolSealer.SealDatagramInto` | src/sealed.rs:202-220 | appends the wire form of the datagram under the next number, of the announced length, and records it as sealed |
| `Sealed.SymbolOpener.OpenInPlace` | src/sealed.rs:149-174 | replay is reported exactly for unacceptable numbers; any failure leaves buffer and window unchanged; success decrypts in place and accepts the number |
| `Sealed.SymbolOpener.OpenDatagram` | src/sealed.rs:224-244 | returns block and payload of the sealed datagram that the bytes are, or nothing with buffer and window unchanged |
| `Rate.SampleMeans` | src/rate.rs:275-277 | raw loss, delivered rate and sent rate are the lost fraction (zero when more arrived than the span grew) and the bytes per second of the interval |
| `Rate.MeasurementMeans` | src/rate.rs:243-277 | a report is measured exactly when 50 ms have passed since the last one that counted and both counters have grown; loss, delivered and sent rate are then those of the interval in the two reports' own counters, with the span or without |
| `Rate.ShortReportsMerge` | src/rate.rs:256-267 | a report within 50 ms changes nothing, so its interval is merged into the next; any other starts the next interval, measured or idle |
| `Rate.Measure` | src/rate.rs:245-277 | a measurement has raw loss in 0..1 and a positive delivered rate, and is strictly later than the last one |
| `Rate.MaxDeliveredIsMaximum` | src/rate.rs:322-334 | the windowed maximum bounds every sample of the last 2500 ms of the whole history and is attained |
| `Rate.MaxIsLargestInWindow` | src/rate.rs:330-334 | the maximum over the deque equals the maximum over the history |
| `Rate.WindowIsSuffix` | src/rate.rs:322-329 | in a chronological history the samples inside the window are exactly a suffix |
| `Rate.DropExpired` | src/rate.rs:323-329 | samples dropped earlier never matter again |
| `Rate.TrimFront` | src/rate.rs:323-329 | the pop-front loop leaves exactly the samples inside the window |
| `Rate.MaxRate` | src/rate.rs:330-334 | the fold returns the largest sample |
| `Rate.RateController.constructor` | src/rate.rs:209-224 | a fresh controller, in startup, at 100 Mbit/s or the cap |
| `Rate.RateController.OnReportStep` | src/rate.rs:236-387 | the controller follows the value-level step, with the maximum taken over the whole history, and returns the rate exactly when it changed |
| `Rate.RateController.CloseInterval` | src/rate.rs:243-277 | closes an interval of at least 50 ms and measures it; merges shorter ones, ignores idle ones |
| `Rate.RateController.ApplyStep` | src/rate.rs:279-386 | one measurement: loss signal, window, cooldown, decision |
| `Rate.RateController.UpdateFloor` | src/rate.rs:287-316 | frozen in cooldown, relaxed upward by rate band, tracked downward and re-anchored |
| `Rate.RateController.PushDelivered` | src/rate.rs:322-334 | pushes, trims and returns the windowed maximum of the whole history |
| `Rate.RateController.DecideStep` | src/rate.rs:341-384 | the cut, grow and probe bands, startup included |
| `RateRuns.ReportsAreMeasurements` | src/rate.rs:236-277 | over any run, reports act on the controller only through their measurements |
| `RateRuns.RateStaysInRange` | src/rate.rs:209-212 | over every run of reports the rate stays between 5 Mbit/s and the cap |
| `RateRuns.CutDescends` | src/rate.rs:345-354 | a cut lands on the lower of nine tenths of the rate and the windowed delivered maximum, but not below the minimum |
| `RateRuns.FallsOnlyByCutOrExit` | src/rate.rs:341-384 | the rate falls only by a cut or at the plateau exit; startup never restarts |
| `RateRuns.NoDecision` | src/rate.rs:318-339 | an interval below 0.7 of the rate, or in cooldown, changes neither rate nor startup: loss and floor are tracked, and only the latter leaves a sample and counts the cooldown |
| `RateRuns.AppLimitedKeepsRate` | src/rate.rs:526-538 | over any run of intervals below 0.7 of the rate nothing is decided, whatever the losses |
| `RateRuns.NoGrowthUnsaturated` | src/rate.rs:342-379 | without a cut an interval below 0.9 of the rate changes nothing |
| `RateRuns.CleanGrowth` | src/rate.rs:355-378 | after startup a clean saturated interval raises the rate by exactly 5%, or 1% where the rate less the loss at the floor already is the best delivered rate, up to the cap |
| `RateRuns.PlateauEndsStartup` | src/rate.rs:367-375 | clean startup intervals without growth keep the rate, and the third in a row ends startup at the best delivered rate, never raising |
| `RateRuns.MiddleBand` | src/rate.rs:379-384 | between the bands a decision probes 1% upward or holds, and holds if and only if it is in startup, the interval did not saturate the rate, or the rate is at the cap |
| `RateRuns.MiddleBandInStartup` | src/rate.rs:379-384 | a fresh controller gets there: raw losses 0 and then 0.1 make it hold in startup |
| `RateRuns.FloorBetween` | src/rate.rs:287-316 | the floor moves toward the smoothed loss and stops strictly short of it |
| `RateRuns.FloorNeverSnaps` | src/rate.rs:304-310 | over any run of losses no lower than a level below the floor, at least 0.7^n of the distance is left after n measurements, exactly that much when the loss is at the level |
| `RateRuns.StochasticLossNeverCuts` | src/rate.rs:4-11 | with raw losses in a band no wider than 5%, at any level and for any length of run, a fresh controller never cuts or aborts startup, and the rate falls at most once, when startup ends, and never after |
| `RateRuns.RandomLossClimbsToCap` | src/rate.rs:438-443 | under such loss, after startup, n saturated measurements raise the rate at least by 1.01^n, up to the cap |
| `RateRuns.StaysAtCap` | src/rate.rs:341-384 | a controller at its cap stays there under such loss while the path delivers the cap, plateau exit included |
| `RateRuns.OneCutPerCooldown` | src/rate.rs:336-354 | under sustained excess loss there is exactly one cut per four qualifying measurements |
| `RateRuns.GeometricDescent` | src/rate.rs:345-354 | under sustained excess loss the rate never rises and after N qualifying measurements is at most 0.9^(N/4) of the start, or the minimum |
| `RateRuns.FloorStep` | src/rate.rs:287-316 | one measurement lifts the floor by at most 0.001, by 0.0002 above the anchor rate, not in cooldown; the anchor moves only on a cleaner sample |
| `RateRuns.FloorDoesNotRatchet` | src/rate.rs:20-29 | over any run the floor rises at most 0.001 per sample at its anchor rate plus 0.0002 per sample above it |
| `RateRuns.DoublingsAreBounded` | src/rate.rs:355-366 | n doublings imply that 1.1^(n-1) times the first delivered rate is at most what the path ever delivers |
| `RateRuns.StartupDecisionsAreBounded` | src/rate.rs:361-375 | startup takes at most 3n + 3 decisions, n being its doublings |
| `RateBottleneck.NoRunaway` | src/rate.rs:445-457 | in closed loop with a link that delivers at most d, whatever the random loss and however long the run, while the floor is at most 0.838 - gap the rate stays below its start or 1.05 d / gap |
| `RateBottleneck.NoRunawayWithin` | src/rate.rs:445-457 | the same over n measurements from the starting floor alone, which rises at most 0.001 per measurement |
| `RateRatchet.ClimbCuts` | src/rate.rs:341-354 | a climb above the bottleneck that ends in a cut has lifted floor and smoothed loss only so far, and it never cuts where the link shows no congestion |
| `RateRatchet.ClimbGoesOn` | src/rate.rs:355-384 | while it climbs, what the floor gains is paid for by the loss the link shows or by moving away from the floor's anchor |
| `RateRatchet.CoolStep` | src/rate.rs:33-38 | in the dip after a cut floor and smoothed loss come back down, measurement by measurement |
| `RateRatchet.CoolEnds` | src/rate.rs:33-38 | the first decision after a cooldown is no cut and starts a climb from a lowered floor |
| `RateRatchet.StartCuts` | src/rate.rs:341-354 | whatever ends startup leads into a cooldown the cycle can take |
| `RateClosedLoop.CutLands` | src/rate.rs:33-38 | where nothing above d was delivered a cut lands at or below d, and one made above the bottleneck at 0.9 d or more |
| `RateClosedLoop.CycleStep` | src/rate.rs:236-387 | one closed-loop measurement keeps the controller in the cycle of startup, climb, cut and cooldown |
| `RateClosedLoop.NoRatchet` | src/rate.rs:445-457 | for random loss p up to 10%, START_RATE (0.8882 - p) <= d and a cap of at least 1.05 d / (0.738 - p), from a fresh controller and over runs of any length: the floor stays within 0.112 above p and the rate after startup between 0.9 d and d / (0.738 - p) |
| `RateClosedLoop.HoldsTheBottleneck` | src/rate.rs:445-457 | if moreover the bottleneck b = d / (1 - p) takes the starting rate, the rate after startup stays between 0.9 (1 - p) b and 1.25 b and the floor within 0.059 above p |
| `RateClosedLoop.FloorBoundExact` | src/rate.rs:20-29 | for such p and cap the floor stays within 0.112 above p over every run if and only if START_RATE (0.8882 - p) <= d |
| `RateClosedLoop.SlowLinkTaintsFloor` | src/rate.rs:24-27 | on every link that takes less than the starting rate, whatever its random loss and any cap from 100 Mbit/s, one measurement puts the floor at the congestive loss, with startup still doubling |
| `Pacing.Pacer.Pace` | src/rate.rs:164-176 | charges the bytes to the next send slot, with at most 10 ms of credit, and asks for the sleep up to it |
| `Pacing.CreditAfterIdle` | src/rate.rs:168-172 | a call up to 10 ms late is charged from its slot, a later one from 10 ms before its entry, a first one from its entry |
| `Pacing.UnpacedIsFree` | src/rate.rs:165-167 | without a rate a call neither sleeps nor touches the slot |
| `Pacing.KeepsTheRate` | src/rate.rs:164-176 | a sender never more than 10 ms late keeps its rate exactly: its slots move by the send time of its bytes |
| `Pacing.TokenBucket` | src/rate.rs:164-176 | over any stretch of calls with changing rates the send time charged is at most the time passed plus 10 ms |
| `Pacing.SleepIsOwnSendTime` | src/rate.rs:164-176 | no call sleeps longer than its own send time |
| `Pacing.CapOnTheWire` | src/rate.rs:164-176 | with rates at most cap, the bytes of any stretch are at most cap times the time passed plus 10 ms |
| `Pacing.FlushedWithinCap` | src/send.rs:582-602 | counting from flush to flush, the same plus one batch |
| `Repair.LossIsFractionLost` | src/send.rs:123-145 | the loss sample is the fraction that did not arrive, zero when more arrived than was sent and at most nine tenths |
| `Repair.EstimateStaysInBand` | src/send.rs:103-145 | over every run of reports the estimate stays between 0 and 0.9 and within any band that holds all interval losses |
| `Repair.SmallIntervalsMerge` | src/send.rs:123-137 | a report of fewer than 50 further packets is merged, any other starts the next interval |
| `Repair.EstimateClosesIn` | src/send.rs:103-145 | after n intervals of equal loss exactly 0.7^n of the first report's error is left |
| `Repair.RoundFollowsEstimate` | src/send.rs:149-161 | every round is the overhead its estimate, round number and command line ask for, rounded up, but at least 2 in the first round and 8 later |
| `Repair.RepairRoundSize` | src/send.rs:475-481 | a repair round makes at least max(8, k/16 rounded up) and at most max(8, 2k) symbols, whatever the estimate |
| `Repair.FirstRoundSize` | src/send.rs:469-474 | the first round adds between 2 and max(2, k) repair symbols, and no fewer than the overhead asked for |
| `Repair.FirstRoundAbsorbsLoss` | src/send.rs:149-156 | the first round leaves at least k surviving symbols of blocks of every size k under loss p if and only if its fraction f has (1 + f)(1 - p) >= 1 |
| `Repair.FirstRoundFallsShort` | src/send.rs:149-156 | otherwise it falls short for every block large enough that the gap outweighs rounding and the minimum of two |
| `Repair.EstimatedLossIsAbsorbed` | src/send.rs:149-156 | with a correct estimate p this is the case exactly when p <= 4/9 and either 1.5 p^2 <= 0.48 p + 0.02 or the command-line fraction suffices |
| `Repair.LossEstimator.UpdateStep` | src/send.rs:123-145 | the estimator's object follows the value-level update |
| `Encoders.RecencyDistinct` | src/send.rs:674-693 | the recency list holds each requested block once |
| `Encoders.RecencyByLastUse` | src/send.rs:674-693 | the recency list is in the order of last requests, latest first |
| `Encoders.HitKeepsRecency` | src/send.rs:681-683 | moving a cached block to the front keeps the cache a prefix of the recency list |
| `Encoders.MissKeepsRecency` | src/send.rs:684-691 | inserting a missing block and truncating does, too |
| `Encoders.EncoderCache.GetEncoder` | src/send.rs:674-693 | returns the encoder of exactly the block's bytes; the cache holds the most recently requested distinct blocks in order |
| `Udp.FlattenChunks` | src/udp.rs:262-274 | the pieces of a buffer put together give the buffer |
| `Udp.ChunksUndoFlatten` | src/udp.rs:380-384 | cutting a coalesced buffer gives back the segments, short tail included |
| `Udp.SplitDelivers` | src/udp.rs:372-384 | the receive split delivers the coalesced datagrams one by one and unchanged |
| `Udp.SendMmsgOnce` | src/udp.rs:262-284 | offers up to 64 pieces and counts the bytes of those taken |
| `Udp.ChunksAreSegmented` | src/udp.rs:262-274 | the pieces of a buffer all have the segment size, the last possibly less |
| `Udp.TakesMakeProgress` | src/udp.rs:93-110 | every call in which the kernel takes something moves the send on by at least a piece, with offload to the end |
| `Udp.PiecesOutAreTaken` | src/udp.rs:262-284 | without offload exactly as many pieces are out as the kernel took, 64 a call at most, until all are |
| `Udp.SendSegments` | src/udp.rs:90-111 | under every schedule of refusals, partial acceptances and errors exactly the pieces the replies allow go out, in order; success if and only if all are out, failure exactly on the first error met, and waiting only after fewer takes than pieces |
| `Udp.BatchFits` | src/send.rs:378-381 | a full super-buffer fits 65000 bytes exactly when one datagram does, and no larger one would |
| `Udp.OversizedDatagram` | src/send.rs:378-381 | the largest symbol size breaks the limit |
| `Udp.PackBatches` | src/send.rs:483-508 | batches carry the datagrams in order, all full but the last |
| `Udp.SuperBufferFits` | src/udp.rs:39-41 | every batch respects the kernel's limit when a datagram does |
| `Frames.FrameRoundTrip` | src/wire.rs:81-101 | a frame is read back with the rest of the stream untouched exactly when its body is at most 1 MiB, else refused |
| `Frames.PartialFrameWaits` | src/wire.rs:91-101 | an incompletely delivered frame is never misread |
| `Frames.BadFramesAreRefused` | src/wire.rs:91-101 | a read fails as too long exactly past 1 MiB, as a bad body exactly when a whole body does not decode, and waits exactly while the body is incomplete |
| `Frames.StreamRoundTrip` | src/wire.rs:81-101 | a stream of frames is read back in order if and only if every body is at most 1 MiB |
| `Frames.ControlStream.WriteFrame` | src/wire.rs:81-88 | appends prefix and body, or nothing when the length does not fit 32 bits |
| `Frames.ControlStream.ReadFrame` | src/wire.rs:91-101 | reads one frame or reports why not, consuming exactly the frame |
| `FeedbackLoop.DrainCounts` | src/send.rs:628-636 | over any feedback the counter equals the acknowledged blocks, never decreases and never exceeds the blocks; a block is acknowledged if and only if it was before or a message before the end names it |
| `FeedbackLoop.DrainEndsAtVerdict` | src/send.rs:661-669 | draining ends at the first verdict or lost connection, tells the two apart and ignores what follows; it ends empty exactly without either |
| `FeedbackLoop.DrainFeedsEstimate` | src/send.rs:644-653 | the loss estimate is fed exactly the reports that tell of packets, with their span or without one the packets sent |
| `PacedRuns.PollsAreReports` | src/send.rs:637-660 | over every run of drains controller and pacer are exactly where the reports of the run bring them |
| `PacedRuns.PollsFeedEstimate` | src/send.rs:644-653 | over every run of drains the estimate is where the run's reports lead it, and a sender at a fixed rate keeps that rate |
| `PacedRuns.PacerFollowsController` | src/send.rs:384-390 | the pacer has the controller's rate at every point of every run if and only if the cap is at least 100 Mbit/s |
| `PacedRuns.CapIsKeptExactly` | src/send.rs:384-390 | the pacing rate stays at or below the cap at every point of every run if and only if the cap is at least 100 Mbit/s |
| `PacedRuns.LowCapIsExceededThroughout` | src/send.rs:384-390 | with a lower cap, raw losses in any 5% band and a path that delivers the cap, the pacer keeps 100 Mbit/s for the whole transfer |
| `PacedRuns.LowCapWitness` | src/send.rs:384-390 | such transfers exist for every lower cap and every length, with everything sent and delivered at exactly the pacer's 100 Mbit/s |
| `PacedRuns.PacerStaysWithinCap` | src/send.rs:654-658 | with a cap of at least 100 Mbit/s the pacing rate stays between the minimum and the cap over every run |
| `PacedRuns.CapHoldsOnTheWire` | src/send.rs:582-602 | then the bytes flushed in any window are at most cap times the window plus 10 ms, plus one batch |
| `FeedbackLoop.FeedbackState.DrainFeedback` | src/send.rs:618-671 | the drain loop handles the queue up to the first verdict or loss, on acknowledgements, estimator, controller and pacer |
| `FeedbackLoop.FeedbackState.AckBlock` | src/send.rs:630-636 | an index in range and new is recorded and counted, any other ignored |
| `FeedbackLoop.FeedbackState.TakeReport` | src/send.rs:637-660 | a report with packets feeds the estimator and, in adaptive mode, controller and pacer |
| `FeedbackLoop.FeedbackState.Settle` | src/send.rs:539-558 | the settle loop goes on exactly while a poll brings a new acknowledgement, no verdict and a table not yet full, at most once per outstanding block and once more, and returns what the last poll ended with |
| `TransferSafety.OutstandingExact` | src/send.rs:445-447 | a round's list is exactly the unacknowledged blocks, in order |
| `TransferSafety.RoundOrWait` | src/send.rs:445-463 | with the feedback drained the sender waits for the verdict if and only if all blocks are acknowledged or the socket is gone, and otherwise starts a round over exactly the others |
| `TransferSafety.WaitDropsFeedback` | src/send.rs:450-457 | while it waits for the verdict it drops every other frame |
| `TransferSafety.FramesAreFeedback` | src/send.rs:628-661 | the state machine handles a frame as the drain loop does |
| `TransferSafety.AcksFollowDecoding` | src/recv.rs:281-306 | over every run: acknowledged at the sender implies heard, heard implies written, written implies complete, and no block is acknowledged twice |
| `TransferSafety.DoneComesLast` | src/recv.rs:340-351 | over every run the verdict is the last frame, after every block was complete and acknowledged, and says whether the hashes agree |
| `TransferSafety.SuccessMeansVerified` | src/send.rs:561-576 | the sender finishes only on a verdict over complete blocks, with success if and only if the hashes agree, and, unless the socket went away, with every acknowledgement seen |
| `TransferSafety.FileArrivesIntact` | src/recv.rs:265-351 | with nothing forged and a sound decoder every complete block equals the source, the verdict is success with the whole file equal, and the sender never finishes with failure |
| `TransferProgress.NoSymbolTwice` | src/send.rs:460-481 | over all rounds no symbol of a block is put into a datagram twice |
| `TransferProgress.NothingIsLeftBehind` | src/send.rs:483-511 | batches are bounded, every encoded datagram reaches the wire unless sending failed, and nothing is sprayed once the socket is gone |
| `TransferProgress.NoRepairAfterAck` | src/send.rs:460-463 | once a block is acknowledged and not being sprayed, no further datagram of it is ever made |
| `TransferSymbols.TakenUpRun` | src/send.rs:460-481 | over every run each block is started in round 0 or acknowledged before its turn, so later rounds only add repair symbols |
| `TransferSymbols.SymbolsInOrder` | src/send.rs:465-496 | over every run the symbols sprayed for a block, then the queued ones, are 0, 1, 2, ... with none left out, repeated or out of order; a beginning of that if the sender stopped |
| `TransferSymbols.DatagramOrBurned` | src/send.rs:483-496 | every sprayed symbol is in exactly one of the datagrams or burned by a drop |
| `TransferSymbols.EverySymbolOnce` | src/send.rs:465-496 | the symbols in datagrams, burned and queued are exactly the ids below the sender's plan for the block, each in one of the three |
| `TransferSymbols.RoundsAreCounted` | src/send.rs:443-524 | over every run the round number is the number of rounds ended, and each block's repair rounds are counted one by one |
| `TransferSymbols.RoundIsSized` | src/send.rs:465-481 | what a round queues for a block is its source symbols in the first round and repair symbols sized by estimate, round number and command line |
| `TransferSymbols.RepairRoundsAreProductive` | src/send.rs:475-481 | after r > 0 repair rounds the k source symbols and at least r times max(8, k/16) repair symbols have been made, all different |
| `TransferProgress.TickIsExact` | src/recv.rs:319-327 | a report's span minus its count is exactly the number of datagrams below the span not accepted by then, and the span is at most the packets sent |
| `TransferReports.TickWritesTruth` | src/recv.rs:319-327 | a tick writes the packets opened and, sealed, one more than the highest number accepted, so that their difference is what is missing below it |
| `TransferReports.ReportsAreTrue` | src/recv.rs:319-327 | over every run each report on the control stream is true of the receiver at the step that wrote it |
| `TransferReports.OpenedAndLate` | src/recv.rs:278-284 | over every run the counters are the datagrams opened and those of them for complete blocks |
| `TransferReports.IntervalLossIsExact` | src/rate.rs:12-19 | of two reports on the control stream, span growth minus count growth is the interval's lost datagrams plus those still under way less the stragglers of earlier intervals; it is the interval's real loss if and only if late ones and stragglers are equally many |
| `LateArrival.ReorderedIsNotLost` | src/rate.rs:12-19 | a run in which the sender sees one loss in an interval of two, with no straggler, though nothing is lost |
| `TransferProgress.SequenceAccounting` | src/send.rs:483-496 | over every run the sealer's counter equals the packets sent, burned numbers included, and every report has count <= span <= packets sent |
| `TransferProgress.DecodesAtThreshold` | src/recv.rs:281-295 | a block is complete once a threshold number of its datagrams, whichever they are, has been opened, unless the disk failed |
| `TransferProgress.DeliveredBytesAreRecv` | src/recv.rs:270-277 | of all byte strings delivered in sealed mode exactly the acceptable sealed datagrams of this transfer count as received |
| `TransferLiveness.LostStaysLost` | src/recv.rs:298-302 | once the sender has failed, or the receiver has stopped or met a disk error, no continuation of the run ends in success |
| `TransferLiveness.FedFromLogRun` | src/recv.rs:281-295 | over every run each symbol fed to a decoder came from a datagram of that block that was sent and opened |
| `TransferLiveness.TargetIsOutstanding` | src/send.rs:445-463 | over every run a block the receiver still lacks is never acknowledged at the sender, so every round takes it up |
| `TransferLiveness.FlushIsUseful` | src/send.rs:497-511 | a successful flush puts an unopened datagram of the sprayed block on the wire |
| `TransferLiveness.FeedNew` | src/recv.rs:281-295 | feeding a symbol the decoder has not seen completes the block or lowers the number it still needs |
| `TransferLiveness.Deliver` | src/send.rs:430-559 | from every live state a schedule exists that ends with the receiver holding every block and reporting |
| `TransferLiveness.ReadVerdict` | src/send.rs:561-576 | once the receiver has reported, a sender that has not failed can go on to read the verdict, wherever it is in a round |
| `TransferLiveness.NoDeadEnd` | src/send.rs:430-576 | every run, whatever was lost in it, can be continued to success with the file equal to the source, unless a side has given up or the receiver's socket vanished with blocks missing |
| `TransferLoops.ExecContinuesRun` | src/send.rs:430-559 | executing on from a reached state is again a run |
| `TransferLoops.SprayBlock` | src/send.rs:483-511 | the packet loop of one block takes exactly the sends and flushes that drops and flush results dictate, in order; it ends regularly if and only if every flush succeeded, with every packet sent and every batch flushed |
| `TransferLoops.Collector.constructor` | src/recv.rs:250-258 | a fresh receiver: nothing decoded, the output file at its full size |
| `TransferLoops.Collector.OnDatagram` | src/recv.rs:274-297 | one opened datagram is counted, fed, decoded, written and queued for acknowledgement as the state machine says, disk errors included |
| `TransferLoops.AckRun` | src/recv.rs:303-305 | as many acknowledgement steps as there are pending ones write them all, oldest first, and one more goes back to waiting |
| `TransferLoops.Collector.FlushAcks` | src/recv.rs:303-305 | the loop appends exactly those frames and takes exactly those steps |

## Left out

- TLS, certificate pinning and the key exporter; SHA-256; RaptorQ; ChaCha20-Poly1305: unseen libraries, replaced by the assumptions above.
- Socket calls, ancillary data, offload probing, flow accept and keepalive: foreign calls; the kernel appears as a sequence of replies.
- Connection setup, the Hello and Manifest exchange and the timeouts: they only decide whether a run starts or aborts; `Abort` and `Stop` stand for every failure.
- JSON bodies: any invertible codec.
- Command line, logging, the transfer tag generator and the pseudo-random drop generator.
- Floating-point rounding and the nanosecond rounding of durations.
- The mutex around the replay window and the atomic counter: each open and each number is one indivisible step.
- The sender's and receiver's outer loops are steps of a state machine on values, not one method each: they run concurrently. The byte counter, the encoder cache and the pacer are modelled outside it.
- Exhaustion of the 32-bit repair counter and of the 24-bit symbol id.
- A failing AEAD seal, which the library reports only for impossibly long bodies.
- Replay.ReplayWindow.Commit: leaves out the number 2^64 - 1, for which the source's `seq + 1` overflows; the sealer would have to send 2^64 datagrams to reach it.
- RateBottleneck.NoRunaway: assumes a bound on the floor along the run, and starts after startup; RateClosedLoop.NoRatchet needs neither.
- RateClosedLoop.NoRatchet: covers random loss up to 10% and a cap that leaves room, as does RateClosedLoop.HoldsTheBottleneck; heavier random loss and caps close to the bottleneck are covered by RateBottleneck.NoRunaway only.
- RateBottleneck.NoRunawayWithin: spends 0.001 of floor per measurement, so it says nothing about very long runs.
- Udp.SendSegments: with offload, covers segment sizes below 2^16; the source truncates larger ones to 16 bits.
- TransferLiveness.NoDeadEnd: states that a successful continuation exists, not that a fair network brings it about in a given time; whether a transfer whose socket vanished early can still complete depends on what is in flight and is not decided.
