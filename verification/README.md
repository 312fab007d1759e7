# The media core, modelled and proved

This project models the real-time media path of the client and a few of its
self-contained algorithms, and proves what they guarantee over whole runs.

| part | files |
|---|---|
| content-audio jitter buffer: a peer's buffer driven by arriving frames and 20 ms slots | `JitterModel`, `JitterOrder`, `JitterRuns`, `JitterReplay`, `JitterFates`, `JitterLockIn`, `JitterDelivery`, `JitterRebuild`, `JitterBuffer`, `ContentPlayout` |
| NLMS echo canceller: a circular history and weights updated in place | `EchoModel`, `EchoCanceller`, `EchoStability`, `EchoAdaptation` |
| voice playout accounting and the adaptive loops it drives | `VoiceModel`, `CallController`, `VoiceAccounting`, `VoiceDepartures`, `AdaptiveControl`, `AdaptiveRecovery` |
| capture: phase-carrying resampler, frame accumulator, device timeline, and the tail of `pump` that joins them | `CaptureModel`, `ResamplerProofs`, `CapturePump`, `ContentCapture` |
| island labelling and the mirrored avatar pattern | `Grid`, `AvatarIslands`, `AvatarPattern` |
| the libvpx manifest evaluator | `Manifest`, `ManifestMeaning`, `ManifestSelection` |
| plane packing and rotation | `CameraPlanes` |
| the content-audio wire format | `ContentAudioWire` |

Where the program updates fields step by step, a class with those fields has one
method per operation, proved to compute a function on the class's abstract value;
the properties are lemmas about those functions. `Machine` holds the machine
integers with their wrapping and saturating arithmetic; `Scan` the fold that cuts
a signal into frames. The properties spell numbers and coordinates out instead of
naming the model's constants, so that they say what the model does and do not follow it.

Where the code does not do what its comments or tests suggest, the proofs give a
concrete input from a fresh state and an exact condition:

- The jitter buffer sorts by plain sequence number, so it misorders a stream across
  the 32-bit wrap. A slot then conceals although the expected frame is held, and that
  frame is left behind. `TickNoReplayExact` gives the exact slots that break the
  no-replay invariant, `StepOverIsReachable` a run that reaches one, and
  `DeliveredExactlyWithoutWrap` the exact streams delivered whole.
- A frame already played can play again after a reset. `DuplicateTakenExactly`: after
  a frame plays and leaves the buffer empty, its duplicate is taken again exactly when
  more than twenty slots have passed or its number is the last before the wrap.
  `PlaysClimb`: over whole runs only a reset or a restart at least 29 numbers back lets
  a later play be no later in the stream. `ReplayIsReachable` and `RestartIsReachable`
  are runs on which each of the two plays a frame twice.
- Frames in time for their turn can be dropped. `SlotFate`: a slot drops what is held
  exactly when the concealment budget is spent and the slot would wait once more.
  `HeldFrameIsDropped` is such a run: a frame 40 ahead that nothing follows.
- One lost frame can cost frames that came in time. A frame that is not there sends the
  buffer back to filling exactly when neither of the two after it is there yet to show
  that it is lost (`RebuildsExactly`, `SteadyExactly`); the next frame then keeps its
  slot only if it comes with both frames after it (`NextFrameInItsSlot`). On a stream
  that arrives just in time a single loss does it (`OneLossRebuilds`).
- A voice peer that sends fewer packets than the cushion and stops stays as it is,
  neither played nor let go, exactly until it leaves or the depth comes down to what it
  has queued; then its stale packets play (`ShortTalkerIsStranded`). `StrandedThenStale`
  and `TwoPacketsReached` are a run of both. A peer that has started is let go exactly
  by the 600 ms rule once its queue is out (`StartedPeerLeaves`, `GoneInTime`).
- A capture gap does not reset the resampler: the first sample after a gap still
  blends with the last one before it, exactly when the read position lies before the
  new packet (`GapBlends`, `GapBlendIsReachable`).
- The signing bytes of fields that fit 32 bits belong to nothing else
  (`SignedIsUnique`); at 2^32 bytes two different inputs share them
  (`SigningBytesCollide`).

## Model

| member | source | states |
|---|---|---|
| JitterBuffers.JitterBuffer.Push | rust/conquerd-client/src/content_playout.rs:149-174 | the in-place push (late and duplicate tests, append, sort, shed) places the frame by number, keeps a duplicate's first copy, and keeps the twelve highest; the invariant survives |
| JitterBuffers.JitterBuffer.Tick | rust/conquerd-client/src/content_playout.rs:182-244 | one slot in place computes the state machine's slot, in every mode: filling, starting, resync, depth override, dry, waiting, playing |
| JitterBuffers.JitterBuffer.ConcealFrame | rust/conquerd-client/src/content_playout.rs:250-265 | concealing spends one slot of the budget and one frame of the timeline, or ends the stream once the budget is spent |
| JitterBuffers.JitterBuffer.StartFrom | rust/conquerd-client/src/content_playout.rs:268-274 | playing a frame removes exactly that frame and sets the next number and time from it |
| JitterBuffers.SortAfterPush | rust/conquerd-client/src/content_playout.rs:164-165 | appending a new number to a sorted buffer and sorting is placing that one frame |
| JitterOrder.ShedThenInsert | rust/conquerd-client/src/content_playout.rs:164-173 | shedding early loses nothing that shedding late would keep |
| JitterOrder.BatchKeepsTheNewest | rust/conquerd-client/src/content_playout.rs:149-174 | after any batch the buffer is the twelve highest-numbered frames of those held and those not late, sorted, shedding included |
| JitterOrder.ArrivalOrderIrrelevant | rust/conquerd-client/src/content_playout.rs:149-174 | two batches with the same frames, in any order and with any repeats, leave the same state |
| JitterRuns.RunKeepsValid | rust/conquerd-client/src/content_playout.rs:149-274 | sorted, at most twelve frames, concealment within budget, over every run including across the wrap |
| JitterRuns.EveryRunIsSound | rust/conquerd-client/src/content_playout.rs:149-274 | over every run clear of the wrap the buffer is sorted and bounded, and while the timeline runs each frame held or played is at or past the expected number or at least 50 behind it |
| JitterRuns.TickNoReplayExact | rust/conquerd-client/src/content_playout.rs:182-244 | for any numbers at all, a slot keeps the no-replay invariant if and only if it does not conceal over the expected frame while holding it |
| JitterRuns.StepOverIsReachable | rust/conquerd-client/src/content_playout.rs:149-244 | a seven-event run from a fresh buffer, across the wrap, that breaks it |
| JitterRuns.ConsecutivePlays | rust/conquerd-client/src/content_playout.rs:182-274 | of two frames played with any arrivals and concealments between them, the second is later or a restart at least 29 numbers back |
| JitterReplay.PlaysClimb | rust/conquerd-client/src/content_playout.rs:149-274 | no replay over whole runs: of any two plays, however far apart and whatever arrives, the later has the higher number unless an idle slot (a reset) or a restart at least 29 back lies between |
| JitterReplay.IdleIsReset | rust/conquerd-client/src/content_playout.rs:182-265 | once a timeline runs, an idle slot is exactly a reset |
| JitterReplay.DuplicateTakenExactly | rust/conquerd-client/src/content_playout.rs:149-274 | after a frame plays and leaves the buffer empty, its duplicate is taken again if and only if more than twenty slots have passed or its number is the last before the wrap |
| JitterReplay.ReplayIsReachable | rust/conquerd-client/src/content_playout.rs:149-279 | a run from a fresh buffer, clear of the wrap, on which one frame plays twice, 25 slots apart |
| JitterReplay.RestartIsReachable | rust/conquerd-client/src/content_playout.rs:149-274 | a run on which a frame plays again two slots later, as a restart |
| JitterRuns.PlaysExactly | rust/conquerd-client/src/content_playout.rs:182-244 | clear of the wrap: exactly when a slot plays the head, and that playing drops nothing else and concealing drops nothing at all |
| JitterFates.SlotFate | rust/conquerd-client/src/content_playout.rs:182-279 | a slot drops held frames if and only if the budget is spent and it would wait once more, for a fuller cushion or for a missing number; otherwise each is kept or played, never both |
| JitterFates.PushFate | rust/conquerd-client/src/content_playout.rs:149-174 | a push drops a held frame if and only if it is the lowest of a full buffer that takes a higher one |
| JitterFates.FrameFate | rust/conquerd-client/src/content_playout.rs:149-279 | over every run a held frame is held at the end, or was held until one event played it, shed it, or dropped it with the stream |
| JitterFates.GapEnds | rust/conquerd-client/src/content_playout.rs:149-265 | whatever arrives meanwhile, a gap the budget covers ends in a play after at most as many concealed slots as numbers are missing |
| JitterLockIn.NoLockIn | rust/conquerd-client/src/content_playout.rs:182-244 | no lock-in to concealment: from every sound state, if a stream clear of the wrap arrives one frame per slot in order, then after 120 slots every slot plays, one number after another and a constant eleven or fewer behind |
| JitterLockIn.Rolls | rust/conquerd-client/src/content_playout.rs:182-244 | once everything from the expected number to the next arrival is held, every slot plays the next number |
| JitterFates.GapIsWaitedOut | rust/conquerd-client/src/content_playout.rs:224-265 | if nothing more arrives, a head `gap` numbers ahead plays after exactly `gap` concealed slots when the budget covers them; otherwise the stream ends and the held frames go with it |
| JitterFates.HeldFrameIsDropped | rust/conquerd-client/src/content_playout.rs:149-279 | a run from a fresh buffer on which a frame 40 ahead is held and dropped unplayed |
| JitterRuns.ConcealRun | rust/conquerd-client/src/content_playout.rs:250-265 | concealed slots in a row are evenly spaced by one frame, with any arrivals between them, and never exceed the budget left |
| JitterRuns.ConcealedTimeline | rust/conquerd-client/src/content_playout.rs:250-274 | the k-th concealed slot after playing f reports f's time plus k times 20 000 us |
| JitterRuns.ConcealBurst | rust/conquerd-client/src/content_playout.rs:250-265 | no window of any run holds more than twenty concealed slots in a row |
| JitterRuns.SlotsLeftDecreases | rust/conquerd-client/src/content_playout.rs:182-265 | an explicit measure on frames held and budget left falls with every slot |
| JitterRuns.StreamEnds | rust/conquerd-client/src/content_playout.rs:182-285 | a buffer that receives nothing more is idle within that many slots, at most 93 |
| JitterRuns.OneFrameTakesAllItsSlots | rust/conquerd-client/src/content_playout.rs:182-285 | one lone frame takes exactly 25 slots |
| JitterFates.NinetyThreeSlots | rust/conquerd-client/src/content_playout.rs:182-285 | the bound is reached: twelve frames pushed into a fresh buffer that take exactly 93 slots |
| JitterDelivery.Delivery | rust/conquerd-client/src/content_playout.rs:149-244 | as long as each earlier frame was in time or had one of the two after it there at its slot: slot k + 3 plays frame k if it came in time and otherwise conceals with the time k would have had |
| JitterRebuild.RebuildsExactly | rust/conquerd-client/src/content_playout.rs:182-244 | on a stream steady so far, a slot sends the buffer back to filling if and only if its frame is not in time and neither of the two after it is there |
| JitterRebuild.SteadyExactly | rust/conquerd-client/src/content_playout.rs:182-244 | over the whole run the buffer never goes back to filling if and only if every frame is in time or so bridged |
| JitterRebuild.AfterRebuild | rust/conquerd-client/src/content_playout.rs:182-244 | the next slot plays the first of the four frames not yet late if its own batch brings at least three of them, and conceals otherwise |
| JitterRebuild.NextFrameInItsSlot | rust/conquerd-client/src/content_playout.rs:182-244 | after an unbridged frame k, frame k + 1 keeps its slot if and only if it and both frames after it come in that slot's batch and k does not |
| JitterRebuild.OneLossRebuilds | rust/conquerd-client/src/content_playout.rs:182-244 | five frames, one lost and the rest in time, on which the slot of the frame after the lost one conceals |
| JitterDelivery.LossFreeDelivery | rust/conquerd-client/src/content_playout.rs:149-244 | bounded-jitter delivery: slot k + 3 plays frame k for every k, in any order within slots, and nothing is concealed |
| JitterDelivery.DeliveredExactlyWithoutWrap | rust/conquerd-client/src/content_playout.rs:149-244 | a stream is delivered whole on every loss-free schedule if and only if its numbers do not wrap |
| JitterDelivery.WrapMisplays | rust/conquerd-client/src/content_playout.rs:149-244 | a loss-free schedule on which the slot of the last number before the wrap does not play it |
| ContentPlayouts.ContentPlayout.Accept | rust/conquerd-client/src/content_playout.rs:311-313 | a frame reaches its peer's buffer, made fresh on first sight, and no other |
| ContentPlayouts.ContentPlayout.Tick | rust/conquerd-client/src/content_playout.rs:322-332 | visiting the map in any order ticks every buffer once, reports each peer that plays or conceals once, and drops exactly the idle ones |
| ContentPlayouts.RunTracked | rust/conquerd-client/src/content_playout.rs:322-332 | over every run of accepts, ticks, forgets and clears, no tracked buffer is idle |
| ContentPlayouts.StoppedPeerIsForgotten | rust/conquerd-client/src/content_playout.rs:322-332 | whatever the other peers do, a stopped peer is gone within its buffer's own bound |
| ContentPlayouts.PeersAreIndependent | rust/conquerd-client/src/content_playout.rs:300-342 | a peer's buffer after any run is what that peer's own events alone produce |
| ContentPlayouts.EntryIsItsLife | rust/conquerd-client/src/content_playout.rs:300-342 | after any run of accepts, ticks, forgets and clears, a peer's buffer is a fresh one to which its own frames and slots since it was last absent have happened; it is absent exactly when it has sent nothing since a slot left it idle, or it was forgotten or cleared |
| EchoCancellers.EchoCanceller.constructor | rust/conquerd-client/src/aec.rs:56-66 | a new canceller is the silent delay line with zero taps, of at least one tap |
| EchoCancellers.WriteIsShift | rust/conquerd-client/src/aec.rs:74-78 | overwriting the oldest slot of the circular history is shifting the delay line |
| EchoCancellers.EchoCanceller.Filter | rust/conquerd-client/src/aec.rs:80-96 | the two reversed runs accumulate the delay line's inner products |
| EchoCancellers.EchoCanceller.Adapt | rust/conquerd-client/src/aec.rs:108-119 | the same two runs add the step times each window sample to its own tap, in place |
| EchoCancellers.EchoCanceller.ProcessSample | rust/conquerd-client/src/aec.rs:74-127 | one sample of the circular machine is one step of the plain delay-line filter |
| EchoCancellers.EchoCanceller.ProcessFrame | rust/conquerd-client/src/aec.rs:72-128 | a frame in place is the run of the plain filter, a short reference read as silence |
| EchoStability.FramingIrrelevant | rust/conquerd-client/src/aec.rs:72-128 | cutting a signal into frames, in any way, makes no difference |
| EchoStability.WindowIsDelayLine | rust/conquerd-client/src/aec.rs:75-78 | after any run the window holds x[n], x[n-1], ..., zero before the start |
| EchoStability.EstimateIsConvolution | rust/conquerd-client/src/aec.rs:80-96 | the echo estimate is the sum of weights[i] times x[n-i] |
| EchoStability.UpdateFollowsReference | rust/conquerd-client/src/aec.rs:107-119 | an update adds g times x[n-i] to tap i, g times the regularised power being half the error |
| EchoStability.ErrorShrinks | rust/conquerd-client/src/aec.rs:98-119 | on an adapting sample, for any microphone value, the error recomputed with the new weights keeps its sign and between half and all of its size |
| EchoStability.AdaptingSample | rust/conquerd-client/src/aec.rs:98-119 | for any echo path and any near end, how far one update can move the taps from the path |
| EchoStability.PureEchoStability | rust/conquerd-client/src/aec.rs:72-128 | with pure echo of a fixed path, no sample of any run moves the taps away from it, frozen or not |
| EchoStability.PureEchoBudget | rust/conquerd-client/src/aec.rs:72-128 | with pure echo, three quarters of all normalised squared error of a run fits in the initial distance |
| EchoStability.RobustStability | rust/conquerd-client/src/aec.rs:72-128 | for every signal and path: final distance plus half of what was cancelled is at most the initial distance plus the near end let in |
| EchoStability.EnvelopeIsPeak | rust/conquerd-client/src/aec.rs:101-123 | the far-end envelope is exactly the loudest decayed sample of the whole far end: none above it, one reaching it |
| EchoStability.DoubleTalkFreezes | rust/conquerd-client/src/aec.rs:101-122 | a double-talk trigger freezes the weights for 2400 samples, whatever arrives |
| EchoAdaptation.LearnsExactly | rust/conquerd-client/src/aec.rs:72-128 | over any run from a new canceller a sample takes the half-residual step, written out over the samples, if and only if the loudest faded far sample so far is above 0.0001 and neither it nor any of the 2399 samples before it was more than 1.1 times as loud at the microphone as its own peak; otherwise the taps stay |
| EchoAdaptation.PeaksExist | rust/conquerd-client/src/aec.rs:101-105 | every run has the peaks that condition speaks of |
| EchoAdaptation.HoldIsSince | rust/conquerd-client/src/aec.rs:101-123 | over any run the hold left is the samples since the last too loud one, counted down from 2399 |
| EchoAdaptation.OutputExactly | rust/conquerd-client/src/aec.rs:98-125 | what comes out is the error in 32767ths of full scale, clipped and rounded toward zero |
| EchoAdaptation.TapsOfARun | rust/conquerd-client/src/aec.rs:56-66 | as many taps as asked for, at least one, all zero at first, over any run |
| EchoAdaptation.FrameInputs | rust/conquerd-client/src/aec.rs:74-77 | each microphone sample meets the reference sample at its own place, and a short reference is one padded with silence |
| EchoStability.SilentFarEndPasses | rust/conquerd-client/src/aec.rs:188-205 | with nothing played, every microphone sample passes to within one step, whatever the taps |
| Scans.ScanConcat | rust/conquerd-client/src/aec.rs:72-128 | running over a concatenation is running over its parts, state and outputs |
| CallControllers.CallController.HandleRoomAudio | rust/conquerd-client/src/call_controller.rs:1482-1518 | a packet settles the peer's dry slots, is queued last, and the queue is cut to its limit from the front |
| CallControllers.CallController.AdvanceVoiceQueues | rust/conquerd-client/src/call_controller.rs:1533-1600 | one slot for every peer in whatever order the map yields, then release of the silent ones |
| CallControllers.CallController.HandleRemovePeer | rust/conquerd-client/src/call_controller.rs:1453-1459 | everything held for the peer goes, and nothing else |
| CallControllers.CallController.ExpireSpeakers | rust/conquerd-client/src/call_controller.rs:1830-1850 | only peers silent for longer than 600 ms are forgotten |
| CallControllers.CallController.AdaptJitterBuffer | rust/conquerd-client/src/call_controller.rs:1695-1716 | depth and streak follow the window's counters, which are not reset here |
| CallControllers.CallController.AdaptRoomBitrate | rust/conquerd-client/src/call_controller.rs:1730-1760 | setup windows are skipped, then average and rate follow the window's counters |
| CallControllers.CallController.OnMetricsTick | rust/conquerd-client/src/call_controller.rs:1851-1860 | both loops read the same window, then it is cleared |
| CallControllers.CallController.UpdateNetworkQuality | rust/conquerd-client/src/call_controller.rs:2033-2059 | a report moves the average by two fifths and the direct-call rate with it, and hands the encoder, if there is one, the loss hint of the new average |
| CallControllers.CallController.SetOutgoingBitrate | rust/conquerd-client/src/call_controller.rs:2016-2032 | the user's rate, clamped, becomes both the ceiling and the current rate |
| CallControllers.CallController.SetJitterDepth | rust/conquerd-client/src/call_controller.rs:2094-2100 | pinning clamps the depth to 2..20 and stops adaptation |
| CallControllers.CallController.EnterRoomMode | rust/conquerd-client/src/call_controller.rs:2101-2109 | entering a room clears the loss average and grants six setup windows, keeping rate and ceiling |
| VoiceAccounting.EveryRunKeeps | rust/conquerd-client/src/call_controller.rs:1453-1600 | over every run of events: empty slots handed out = charged + discarded + still dry; underruns never exceed frames; each queue is a suffix of what was accepted, played positions strictly increase; queues at most 160; only started peers with an empty queue are dry; rates, average and depth in range |
| VoiceAccounting.FreshIsOk | rust/conquerd-client/src/call_controller.rs:1276-1321 | a new controller satisfies it with an empty ledger; it starts at a cushion of three, adaptive, at 128 000 |
| VoiceAccounting.AudioQueuesLast | rust/conquerd-client/src/call_controller.rs:1500-1518 | the packet is last, the oldest give way only at the limit, nobody else changes |
| VoiceAccounting.ServedIsNext | rust/conquerd-client/src/call_controller.rs:1575-1590 | the frame handed to the decoder is the oldest accepted one neither played nor shed |
| VoiceAccounting.PlayoutForPeer | rust/conquerd-client/src/call_controller.rs:1533-1600 | what a slot means for each peer, independent of the map's order: filling is left alone, audio plays its oldest packet only, dry is concealed and held, and only an empty queue unheard for 600 ms is let go, so cleanup never discards queued audio |
| VoiceDepartures.ViewStep | rust/conquerd-client/src/call_controller.rs:1453-1600 | any event but its own audio changes what is held for a peer only by its leaving or by a live slot, whatever it does to the others |
| VoiceDepartures.StartedPeerLeaves | rust/conquerd-client/src/call_controller.rs:1557-1598 | a started peer that sends nothing more, over any run: let go if and only if it leaves or a live slot, after as many as it has packets queued, finds it not recently heard; until then every live slot plays its next packet or is held as dry |
| VoiceDepartures.LetGoByTheClock | rust/conquerd-client/src/call_controller.rs:1545-1573 | with time never running back, expiries included, that is exactly a live slot 600 ms or more after it was last heard, once its queue is out |
| VoiceDepartures.GoneInTime | rust/conquerd-client/src/call_controller.rs:1545-1598 | at one slot every 20 ms it is gone after 31 slots or one more than its queue, whichever is later: 620 ms of playout for up to 30 packets, never more than 3220 ms |
| VoiceDepartures.StallIsCharged | rust/conquerd-client/src/call_controller.rs:1500-1507 | over any run, device changes included, the empty slots of a started peer are counted as underruns by its next packet if there were at most twelve and it was not let go meanwhile, and otherwise not at all |
| VoiceDepartures.ShortTalkerIsStranded | rust/conquerd-client/src/call_controller.rs:1557-1573 | over any run, a peer that has not started and sends nothing more stays exactly as it is if and only if it does not leave and no live slot is reached at a depth of at most what it has queued |
| VoiceDepartures.StrandedThenStale | rust/conquerd-client/src/call_controller.rs:1557-1590 | two packets wait through any number of slots at any times, and the first of them plays once the depth is lowered to 2 |
| VoiceDepartures.TwoPacketsReached | rust/conquerd-client/src/call_controller.rs:1482-1518 | a run from a new controller reaches that state |
| VoiceAccounting.ExpiryDecidesNothing | rust/conquerd-client/src/call_controller.rs:1830-1850 | forgetting long-silent speakers never changes what a later slot does |
| VoiceAccounting.ExpiryIsExact | rust/conquerd-client/src/call_controller.rs:1830-1850 | an expiry forgets exactly the peers unheard for more than 600 ms |
| VoiceAccounting.LeavesNothing | rust/conquerd-client/src/call_controller.rs:1453-1459 | a peer that leaves leaves nothing behind and nobody else notices |
| VoiceAccounting.SilenceIsNotLoss | rust/conquerd-client/src/call_controller.rs:1533-1600 | a peer that sends nothing more adds no underruns over any run |
| VoiceAccounting.RoomFollowsWindows | rust/conquerd-client/src/call_controller.rs:1730-1760 | through any audio, playout and departures the room's rate depends on the window counters alone |
| VoiceAccounting.CallRecovers | rust/conquerd-client/src/call_controller.rs:1730-1760 | from any reachable state, 26 clean windows after setup return the rate to the ceiling and the average to at most 4 |
| AdaptiveControl.DepthStep | rust/conquerd-client/src/call_controller.rs:1695-1716 | one window moves an adaptive depth by at most one and a pinned one not at all, within 2..12 and 2..20 |
| AdaptiveControl.DepthMeaning | rust/conquerd-client/src/call_controller.rs:2193-2210 | in whole numbers, exactly when a window grows the depth, exactly when it shrinks it, and which windows count toward the five that do |
| AdaptiveControl.ShrinksAreRare | rust/conquerd-client/src/call_controller.rs:2193-2210 | over any run five times the shrinks plus the streak held is at most the windows plus the streak at the start |
| AdaptiveControl.PinnedDepthHolds | rust/conquerd-client/src/call_controller.rs:2094-2100 | the user's depth, brought into 2 to 20, holds over any run until the next choice |
| AdaptiveControl.ChosenRateHolds | rust/conquerd-client/src/call_controller.rs:2016-2032 | the user's rate, brought into 16 000 to 192 000, is at once the rate and the ceiling, and until the next choice no run passes it |
| AdaptiveControl.RoomSetup | rust/conquerd-client/src/call_controller.rs:2101-2109 | entering a room clears the average; six windows with playout change nothing, and the seventh adapts the rate |
| AdaptiveControl.NothingToAdapt | rust/conquerd-client/src/call_controller.rs:1730-1733 | outside a room, without a device or without playout, windows change nothing |
| AdaptiveControl.EmaBounds | rust/conquerd-client/src/call_controller.rs:2237-2250 | with underruns at most frames the loss average stays in [0, 100] |
| AdaptiveRecovery.CleanRunRecovers | rust/conquerd-client/src/call_controller.rs:2237-2267 | from any state, windows without underruns settle the average by the fifth after setup and reach the ceiling by the 26th |
| AdaptiveRecovery.CleanRunTakesThemAll | rust/conquerd-client/src/call_controller.rs:2237-2267 | from the slowest start 25 do not suffice: the rate is then exactly 190 814 |
| AdaptiveRecovery.CalmRunRecovers | rust/conquerd-client/src/call_controller.rs:2237-2267 | up to one underrun in a hundred slots: the eighth and the 28th |
| AdaptiveRecovery.CalmRunTakesThemAll | rust/conquerd-client/src/call_controller.rs:2237-2267 | from the slowest start 27 windows with some underruns do not suffice: 180 529 |
| AdaptiveRecovery.MiddlingRunRecovers | rust/conquerd-client/src/call_controller.rs:2252-2267 | loss held between 4 and 10 percent does not hold the rate down: from any average in that band it is back at the ceiling within 51 windows after setup, the average still in the band |
| AdaptiveRecovery.MiddlingRunTakesThemAll | rust/conquerd-client/src/call_controller.rs:2252-2267 | from the lowest rate 50 of them do not suffice: 189 976 |
| AdaptiveRecovery.CleanAverage | rust/conquerd-client/src/call_controller.rs:2237-2250 | without underruns the average is halved in every window, over any run |
| AdaptiveRecovery.GrazedAverage | rust/conquerd-client/src/call_controller.rs:2237-2250 | with scattered ones it keeps 65 percent |
| AdaptiveRecovery.LossyAverage | rust/conquerd-client/src/call_controller.rs:2237-2250 | under a steady loss q it is q + (start - q) * 0.7^n after n windows |
| AdaptiveControl.SustainedLossDescends | rust/conquerd-client/src/call_controller.rs:2255-2267 | once the average is above 10, loss above 10 percent cuts the rate strictly every window until the floor, within twelve |
| AdaptiveControl.LossReachesTheFloor | rust/conquerd-client/src/call_controller.rs:2237-2267 | from any state, losing more than q percent of every window reaches the floor within n + 12 windows after setup, for every q and n with q * (1 - 0.7^n) > 10 |
| AdaptiveControl.AnyLossAboveTen | rust/conquerd-client/src/call_controller.rs:2237-2267 | for every q above 10 there is such an n, so any loss held above ten percent reaches the floor |
| AdaptiveControl.HeavyLossReachesTheFloor | rust/conquerd-client/src/call_controller.rs:2237-2267 | for a fifth, n is 2: fourteen windows from any state |
| AdaptiveControl.ToleratedLossNeverCuts | rust/conquerd-client/src/call_controller.rs:2237-2267 | ten percent is the exact line: from an average of at most 10, windows that lose no more never cost any rate |
| AdaptiveRecovery.DirectCallRecovers | rust/conquerd-client/src/call_controller.rs:2220-2232 | from any state 32 loss-free reports return a direct call to its ceiling |
| AdaptiveRecovery.DirectCallTakesThemAll | rust/conquerd-client/src/call_controller.rs:2220-2232 | from the slowest start 31 do not suffice: 182 646 |
| AdaptiveRecovery.DirectAverage | rust/conquerd-client/src/call_controller.rs:2033-2038 | under equal reports q a direct call's average is q + (start - q) * 0.6^n after n |
| AdaptiveControl.DirectDescends | rust/conquerd-client/src/call_controller.rs:2220-2232 | once the average is above 10, reports above 10 percent cut the rate strictly every time until the floor, within twelve |
| AdaptiveControl.DirectLossReachesTheFloor | rust/conquerd-client/src/call_controller.rs:2033-2051 | from any state, reports above q percent bring a direct call to the floor within n + 12, for every q and n with q * (1 - 0.6^n) > 10 |
| AdaptiveControl.AnyReportAboveTen | rust/conquerd-client/src/call_controller.rs:2033-2051 | for every q above 10 there is such an n |
| AdaptiveControl.ToleratedReportsHold | rust/conquerd-client/src/call_controller.rs:2220-2232 | ten percent is the exact line: from an average of at most 10, reports of no more never cost any rate, and within 4 to 10 percent the rate does not move at all |
| AdaptiveControl.FecHintIsNearest | rust/conquerd-client/src/call_controller.rs:2054-2058 | the encoder's loss hint is the average to the nearest percent, capped at 50 |
| ContentCaptures.StreamResampler.Process | rust/conquerd-client/src/content_capture.rs:784-817 | a chunk in place, with the floor and fraction of the read position, is the phase-carrying model's chunk |
| ContentCaptures.FrameAccumulator.Push | rust/conquerd-client/src/content_capture.rs:862-875 | the whole frames of what was pending plus what came, and the partial frame left |
| ContentCaptures.CaptureTimeline.OnPacket | rust/conquerd-client/src/content_capture.rs:938-955 | origin on the first packet, then a jump exactly past 100 ms |
| ContentCaptures.LoopbackSource.PumpPacket | rust/conquerd-client/src/content_capture.rs:651-665 | one packet in place is the model's packet: stamp, reset at a gap, resample, frame, number |
| ResamplerProofs.FeedContinues | rust/conquerd-client/src/content_capture.rs:784-817 | a chunk yields exactly the next outputs of the whole signal |
| ResamplerProofs.FeedAllIsResampled | rust/conquerd-client/src/content_capture.rs:784-817 | any split yields exactly the one-shot resampling of the joined signal |
| ResamplerProofs.ChunksAreIrrelevant | rust/conquerd-client/src/content_capture.rs:784-817 | two ways of cutting one signal give the same output and leave the same state |
| ResamplerProofs.OutputsLieBetween | rust/conquerd-client/src/content_capture.rs:784-817 | N samples yield exactly floor((N-1)*48000/rate)+1 outputs, each between its two neighbours |
| ResamplerProofs.OutputsInterpolate | rust/conquerd-client/src/content_capture.rs:784-817 | output k is its two neighbouring samples weighted in whole 1/48000ths by how near each is, for any split |
| ResamplerProofs.RampsAreExact | rust/conquerd-client/src/content_capture.rs:784-817 | a ramp comes out as the same ramp: c + d * i gives c + d * (k * rate / 48000) at output k, for any split |
| ResamplerProofs.OutputsAreLocal | rust/conquerd-client/src/content_capture.rs:784-817 | output k depends on no samples but those two |
| CapturePump.FramesAndRest | rust/conquerd-client/src/content_capture.rs:862-875 | frames followed by the rest are exactly what was pushed, every frame whole, the rest shorter than one |
| CapturePump.StampMeaning | rust/conquerd-client/src/content_capture.rs:938-955 | a gap is exactly a jump of more than 100 ms past the audio accounted for; it adopts the device's offset; after any timestamped packet the timeline lags by at most 100 ms |
| CapturePump.EveryCaptureKeeps | rust/conquerd-client/src/content_capture.rs:651-665 | over every run of packets, between gaps frames followed by pending are exactly the samples taken, no frame spans a gap, and offsets step by a frame |
| CapturePump.FreshCaptureOk | rust/conquerd-client/src/content_capture.rs:915-925 | a new capture with an empty record satisfies that |
| CapturePump.SpacingUnlessSaturated | rust/conquerd-client/src/content_capture.rs:957-961 | successive offsets differ by at least 20 000 us if and only if the clock has room |
| CapturePump.RecordedIsResampled | rust/conquerd-client/src/content_capture.rs:651-665 | across any gaps the stretches together are one resampling of everything delivered |
| CapturePump.GapBlends | rust/conquerd-client/src/content_capture.rs:651-665 | after any run, on a packet whose stamp is a gap and whose rate is resampled, the first sample it leaves depends on the last sample from before the gap if and only if the read position lies before the packet |
| CapturePump.GapBlendIsReachable | rust/conquerd-client/src/content_capture.rs:651-665 | a run from a fresh capture at 44.1 kHz: a packet, a gap of a second, and a first sample after it that still holds part of the one before |
| AvatarIslands.FindIslands | rust/conquerd-client/src/avatar_config.rs:276-324 | the search terminates and its labels are exact: background 0, labels exactly 1..count, two foreground cells share one if and only if a path joins them, and islands are numbered in the order the scan meets them |
| AvatarIslands.Flood | rust/conquerd-client/src/avatar_config.rs:298-320 | one breadth-first search labels the whole island of its start and nothing else |
| AvatarIslands.RootedSpreadIsExact | rust/conquerd-client/src/avatar_config.rs:276-324 | labels that come from their roots and spread to every neighbour are connectivity |
| Grids.AdjacentExactly | rust/conquerd-client/src/avatar_config.rs:281-314 | which cells touch, by row and column, for four- and eight-way connectivity |
| AvatarIslands.MirrorKeepsIslands | rust/conquerd-client/src/avatar_config.rs:276-324 | on a symmetric grid mirroring maps islands to islands, both ways |
| AvatarPatterns.PatternForPeer | rust/conquerd-client/src/avatar_config.rs:244-259 | every cell and shade shows the digest bit of its folded position, both halves |
| AvatarPatterns.CellsTakeBits | rust/conquerd-client/src/avatar_config.rs:244-259 | each cell shows the bit of its own row and its own or mirrored column, rows half a grid of bits apart, rounded up |
| AvatarPatterns.ShadesTakeBits | rust/conquerd-client/src/avatar_config.rs:242-259 | each shade is the same bit of the other digest, if there are at least two shades |
| AvatarPatterns.BitsOfByte | rust/conquerd-client/src/avatar_config.rs:246-250 | the eight bits of a digest byte, heaviest first, add back up to it |
| AvatarPatterns.PatternIsSymmetric | rust/conquerd-client/src/avatar_config.rs:244-259 | a pattern reads the same from either side, odd grids included |
| AvatarPatterns.PeerIslandsMirror | rust/conquerd-client/src/avatar_config.rs:244-324 | two cells of a peer's pattern share an island if and only if their mirror images do |
| Manifests.SourcesFromMakefile | rust/conquerd-vpx/build.rs:69-120 | the line loop with its mutable stack computes the stack machine's run |
| Manifests.CheckCond | rust/conquerd-vpx/build.rs:123-141 | the loop over the shrinking string computes the recursive reading |
| Manifests.CondMeaning | rust/conquerd-vpx/build.rs:123-141 | a condition other than `yes` is enabled if and only if it names at least one flag, all it names are on, and no reference is left unclosed |
| Manifests.EveryCondition | rust/conquerd-vpx/build.rs:123-141 | every text has the form the meaning speaks of: references, the gaps before them, and what trails |
| ManifestMeaning.ClosedBlock | rust/conquerd-vpx/build.rs:69-120 | from any stack a well-nested block selects exactly what it denotes, nothing if the stack is inactive, and restores the stack |
| ManifestMeaning.WellNestedManifest | rust/conquerd-vpx/build.rs:69-120 | a well-nested manifest yields its meaning and an empty stack |
| ManifestMeaning.EveryManifest | rust/conquerd-vpx/build.rs:69-120 | so does every list of lines, with stray or missing `else` and `endif` |
| ManifestSelection.SelectsExactly | rust/conquerd-vpx/build.rs:69-120 | on every list of lines the output is, in order, each source whose condition is wanted and around which every part is the first of an `ifeq` that holds or of an `ifneq` that fails, or the first `else` of the opposite |
| ManifestSelection.CondExactly | rust/conquerd-vpx/build.rs:123-141 | a condition is enabled if and only if it is `yes`, or names at least one flag, all of them on and none unclosed |
| CameraPlanes.PackPlane | rust/conquerd-android/src/camera.rs:23-50 | pixel (r, c) is data[r * row_stride + c * pixel_stride], or 0 past the end, planar and interleaved alike |
| CameraPlanes.RotatePlane | rust/conquerd-android/src/camera.rs:98-119 | every pixel lands at its target, in place, a short source read as it stands |
| CameraPlanes.EverySlotOnce | rust/conquerd-android/src/camera.rs:98-119 | each output slot is the target of exactly one pixel |
| CameraPlanes.RotatedIsTurn | rust/conquerd-android/src/camera.rs:98-119 | the loops' result is the turn as a function |
| CameraPlanes.QuarterTwiceIsHalf | rust/conquerd-android/src/camera.rs:98-119 | two quarter turns either way are the half turn |
| CameraPlanes.TurnBack | rust/conquerd-android/src/camera.rs:98-119 | a turn and the turn back, dimensions swapped, give the plane back |
| CameraPlanes.FourQuarters | rust/conquerd-android/src/camera.rs:98-119 | four quarter turns are no turn |
| CameraPlanes.RotateI420 | rust/conquerd-android/src/camera.rs:121-147 | all three planes turn together, the chroma planes at half size |
| CameraPlanes.BuildFrame | rust/conquerd-android/src/camera.rs:58-88 | even dimensions, packed planes, turned for any number of degrees |
| CameraPlanes.FramePixels | rust/conquerd-android/src/camera.rs:58-147 | every pixel of a built frame, luma and both chroma planes, is the camera's own pixel found through the one turn, the chroma planes with half the sides |
| CameraPlanes.TurnsClockwise | rust/conquerd-android/src/camera.rs:58-147 | the picture turns the right way: at 90 degrees pixel (row, col) is the camera's (h - 1 - col, row), at 180 (h - 1 - row, w - 1 - col), at 270 (col, w - 1 - row), otherwise (row, col), in all three planes, found by the strides, odd edges cut off |
| ContentAudioWire.EncodeFrame | rust/conquerd-client/src/content_audio.rs:115-136 | appending field after field builds the encoding, or refuses the sender |
| ContentAudioWire.EncodedBytes | rust/conquerd-client/src/content_audio.rs:115-136 | every byte of an encoding by position and weight: version 1, no flags, time and number heaviest byte first, sender with its length, 64 bytes of signature, payload; refused exactly for an empty sender or one over 64 bytes |
| ContentAudioWire.ParsedBytes | rust/conquerd-client/src/content_audio.rs:141-177 | a buffer parses if and only if its header is of version 1 without flags, its sender 1 to 64 bytes of text, and there is room for the signature |
| ContentAudioWire.ParseEncoded | rust/conquerd-client/src/content_audio.rs:115-177 | parsing an encoded frame returns its fields |
| ContentAudioWire.EncodeParsed | rust/conquerd-client/src/content_audio.rs:115-177 | re-encoding whatever parsed returns the same bytes |
| ContentAudioWire.AcceptedExactly | rust/conquerd-client/src/content_audio.rs:141-177 | the accepted buffers are exactly the encodings of well-typed frames |
| ContentAudioWire.EncodingInjective | rust/conquerd-client/src/content_audio.rs:115-136 | two frames with the same bytes are the same frame |
| ContentAudioWire.ContentAudioSigningBytes | rust/conquerd-client/src/content_audio.rs:82-111 | appending field after field builds the signing bytes |
| ContentAudioWire.SigningLayout | rust/conquerd-client/src/content_audio.rs:82-111 | the signed bytes by position and weight: tag, conversation and sender each after its length, number, time, digest |
| ContentAudioWire.SigningBytesInjective | rust/conquerd-client/src/content_audio.rs:82-111 | with lengths under 2^32 the signed bytes determine conversation, sender, number, time and digest, whatever the digests' lengths |
| ContentAudioWire.SignedIsUnique | rust/conquerd-client/src/content_audio.rs:82-111 | with digests of one length, it is enough that the signed lengths are under 2^32: no other input of any length has the same bytes |
| ContentAudioWire.SigningBytesCollide | rust/conquerd-client/src/content_audio.rs:82-111 | at 2^32 bytes they do not: two different inputs with the same bytes |

## Left out

- Floating-point rounding: echo canceller, resampler and loss averages are over the reals with exact floors, and a scaled bitrate is the floor of the exact product.
- Counter widths: window counters, dry counts, streaks and sizes are unbounded; sequence numbers and timestamps are not. The plain 64-bit addition of the pending audio in `on_packet` is taken not to overflow.
- Clocks: instants are milliseconds given with each event, in any order; a later one in the past counts as no time elapsed.
- I/O and foreign code: CPAL and WASAPI streams, Opus, QUIC, tokio timers, JNI, Qt, and the build script's process calls. The audio device appears as present or absent.
- Events and logging: `RemoteSpeakingChanged`, `PeerAudioState` and the other notifications, levels and decoder release.
- `peer_playout_started` is a set of peers, since its entries are only ever true.
- The playout map of `ContentPlayout` holds each peer's buffer as a value of the jitter buffer's state, not as an object; the class of one buffer is proved to compute those values, so only aliasing, which the program's ownership rules out, is not captured.
- The text of manifest lines: recognising a conditional or a source line, and judging an `ifeq` condition (`eval_ifeq`), are parameters; the structure and the flag test are modelled.
- Digests (SHA-256, SHA-512) and UTF-8 validity are arbitrary functions.
- JitterRuns.EveryRunIsSound: stated for numbers at least 50 below the wrap, because it fails across it; `TickNoReplayExact` says exactly where.
- JitterReplay.PlaysClimb: likewise for numbers at least 50 below the wrap.
- JitterRuns.ConsecutivePlays: likewise for numbers at least 50 below the wrap.
- JitterRuns.PlaysExactly: likewise for states clear of the wrap.
- JitterFates.GapEnds: likewise for numbers at least 50 below the wrap.
- JitterLockIn.NoLockIn: likewise for numbers at least 50 below the wrap; 120 slots is a bound, not the least one.
- JitterDelivery.Delivery: stated up to the first frame that is neither in time nor bridged; for what follows only the next slot is described exactly, since after that frame k need not belong to slot k + 3.
- AvatarPatterns.PatternForPeer: for grids whose half needs at most 512 bits, which the settings' range of 8 to 32 does; hues and colours are not modelled.
- A monotone content timeline across underruns: frames held back are replayed with older times on purpose, so only the spacing of concealed slots is claimed.
- `soft_clip_sample`, level metering, `downmix_to_mono` and `f32_to_i16`: one expression each.
- Chat storage, identity, cluster, connection fallback, feature trust, updater, media clock, content sender and the games: database semantics, thin layers over cryptography, or properties settled by one branch.
