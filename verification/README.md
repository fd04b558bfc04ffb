# Terminal Tedium core: verification

Terminal Tedium connects a eurorack module to an audio host. A sampling thread
scans the CV inputs and polls trigger and button edges; a wait-free audio
callback renders them as signals and schedules gate outputs. This project
models that core and the OSC codec that ships beside it, and proves what each
is for:

- **Rings** (`RingSize`, `EventQueue`, `EventQueueSteps`, `Scans`,
  `ScanRingSteps`, `ScanRing`): the event queue with its wrapping 32-bit
  counters and the overwriting scan history. `EventQueueSteps` and
  `ScanRingSteps` interleave single loads and stores, and their theorems hold
  over every run. The scan history as an object, `ScanRing.CvRing`, lives at
  that level too: the sampling thread takes its steps between any two loads of
  the reader.
- **Triggers** (`FanOut`, `Trigger`, `TriggerRuns`, `InputRuns`): polling edges
  into two queues, draining, holding, placing and repainting them, and why a
  run of blocks is one step function of the edges whatever the block sizes,
  drain times and calls in between.
- **CV** (`CvRender`, `CvReader`, `Smoothing`, `Calibration`, `SimLoop`): the
  cursor that walks the history agrees with a fresh search at every frame,
  while the producer goes on storing and publishing, as long as the scan it
  starts from stays less than a ring behind; and it never shows a voltage
  outside the range of the scans pushed, however it is overtaken.
- **Gates** (`Gates`, `GateBank`, `GateTiming`, `GateRace`): the scheduler with
  one pending change per gate, over every run of calls and applies; when a
  crossing reaches the output; and a request against a promotion, one load or
  store at a time.
- **Block clock** (`Timebase`, `TimebaseRuns`): the delay-locked loop as a
  linear system with an energy that every callback shrinks. From any state
  whose energy is small enough it stays locked for ever under bounded jitter,
  and converges on a regular clock.
- **OSC** (`OscFormat`, `OscWriter`, `OscReader`, `OscBundle`,
  `OscRoundTrip`): byte-level writer and reader of messages and bundles.
- **Calibration file** (`CalFile`, `CalRoundTrip`): the printer and the
  hand-written scanner, which undo each other.

`Bits`, `Frames`, `Reals` and `Words` hold arithmetic: masks and wrapping
counters, frame instants, powers, words of bits. The objects are classes with
the source's fields and loops; each method is tied to a function on values, and
the theorems about whole runs are lemmas about those functions.

## How the source is read

Times are whole nanoseconds, frame lengths, samples and the loop's state are
real numbers. Concurrency is sequentially consistent. Between any two loads of
the scan history's reader the sampling thread may take any number of steps, each
one store (`CvRing.Sampler`); between two steps of the gate code it may apply
gates any number of times (`GateBank.SamplerRuns`). `sqrt`, `exp`, `M_PI`,
`strtod` and the two `printf` formats are parameters. Words of level bits are
sets of bit numbers. Pointers into an OSC buffer are positions in one memory.

Where the code and its own comments disagree, the model follows the code:

- `src/tt_ring.h:66-70` says a scan overwritten while it is copied is reported.
  `src/tt_ring.c:76` lets one case through, the scan exactly `size` behind with
  a push in flight: `ScanRingSteps.ExactMargin` shows that the guarantee holds
  exactly below that margin, and `ScanRingSteps.TearingRunTears` gives the run.
- `src/tt_ring.h:76` says that a search returns 0 when the time predates every
  scan in the ring. A torn read of its oldest scan makes it return 0 although
  newer scans answer (`ScanRingSteps.MisledSearch`), and `tt_cv_block` then
  starts a ring's length in the past. `ScanRing.CvRing.Find` is right whenever
  the scan it finds is less than a ring behind at the end.
- `src/tt_ring.h:77` reserves -1 from the search for an empty or entirely
  unreadable range. It is also returned when only the oldest scan of the range
  has been overwritten and the newest does not answer at once:
  `ScanRing.CvRing.Find` gives the exact condition (`Fails`), and
  `ScanRing.OldestOverwritten` a search that gives up on a scan that can be read.
- `include/tedium/tedium.h:312` calls the loop first-order; it is second-order.
  Line 321 calls `frames` the frames elapsed; it is the last block size.
- `src/tt_time.c:80-82` says a changed block size re-seeds the loop. Changes up
  to a doubling or halving do not (`Timebase.ReseedsIff`).
- `src/tt_core.c:644` compares a gate's input with the level word, not with a
  pending change: `Gates.BlockEndsOnLastSample` gives the exact condition under
  which a block's last sample decides the gate, and `Gates.PendingRiseSurvives`
  the blocks whose last sample does not.
- `include/tedium/tedium.h:237` says a crossing anywhere in the block is
  scheduled for the instant it occurs. A gate has one pending change, so the
  next crossing's request replaces one that is not in force yet:
  `GateTiming.CrossingInForce` and `GateTiming.PulseShows` say exactly when a
  crossing comes into force and when a pulse reaches the output, and
  `GateTiming.PulseLost` gives one that never does.
- `software/OSC client/tinyosc.h:140` promises the number of bytes written. On
  failure a code near 2^32 is returned, and the bundle's write head moves by 4
  minus its number; `OscBundle.Bundle.WriteNextMessage` says for which messages
  the bundle is still whole. The comma of a format is stored before the format
  is checked (`software/OSC client/tinyosc.c:172`): exactly when the address
  fits but its padding reaches the end (`OscWriter.CommaEscapes`), the byte
  there becomes a comma although it is outside the buffer
  (`OscWriter.WriteMessage`, and `OscWriter.CommaBehindBuffer` for an example).

## Model

| member | source | states |
|---|---|---|
| RingSize.NextPow2 | src/tt_ring.c:6-11 | the loop ends, within 32 bits, on the least power of two not below its argument, for arguments up to 2^31 |
| Bits.AndMask | src/tt_ring.c:38 | `index & mask` is the remainder by the ring's size |
| Bits.AndBits | src/tt_ring.c:38 | a bit of `a & b` is set exactly when it is set in both |
| RingSize.DoublingReaches | src/tt_ring.c:6-11 | 32-bit doubling reaches the exit if and only if the argument is at most 2^31 |
| EventQueue.PushAppends | src/tt_ring.c:136-148 | with wrapping counters a push appends to the unread events, or counts a drop exactly when every slot is unread |
| EventQueue.PopRemoves | src/tt_ring.c:150-159 | a pop takes the oldest unread event, across counter wrap |
| EventQueue.EvRing.constructor | src/tt_ring.c:116-127 | an empty queue whose size is the least power of two not below the capacity and 16 |
| EventQueue.EvRing.Push | src/tt_ring.c:136-148 | accepted iff fewer unread events than slots; contents and drop count afterwards |
| EventQueue.EvRing.Pop | src/tt_ring.c:150-159 | delivers the oldest event iff there is one |
| EventQueue.EvRing.Drain | src/tt_ring.c:161-166 | moves the oldest events, as many as there are or fit, in order |
| EventQueueSteps.RunKeepsInv | src/tt_ring.c:136-159 | the protocol invariant holds after every interleaving of single loads and stores |
| EventQueueSteps.Fifo | src/tt_ring.c:136-159 | under every interleaving, delivered events followed by unread ones are the accepted ones in order |
| EventQueueSteps.Conservation | src/tt_ring.c:136-171 | accepted events are the attempted ones with some left out, in order; the drop counter is the number left out, with at most one push undecided |
| EventQueueSteps.DropsOnlyWhenFull | src/tt_ring.c:138-144 | a drop is decided exactly when the unread events fill the queue at the load of tail |
| EventQueueSteps.NoSlotConflict | src/tt_ring.c:145-156 | the slot being written is neither the one being read nor any unread one |
| EventQueueSteps.PushAlone | src/tt_ring.c:136-148 | the single steps of an undisturbed push amount to the object's push |
| EventQueueSteps.PopAlone | src/tt_ring.c:150-159 | the single steps of an undisturbed pop amount to the object's pop |
| ScanRing.CvRing.constructor | src/tt_ring.c:17-26 | an empty history on a ring of the least power of two not below the request and 64, nobody pushing |
| ScanRing.CvRing.Push | src/tt_ring.c:35-51 | the whole call: the history grows by the scan given, unused channels 0; it is the run of its single stores |
| ScanRing.CvRing.Count | src/tt_ring.c:53-56 | the number of scans ever pushed |
| ScanRing.CvRing.Get | src/tt_ring.c:58-79 | with the sampling thread storing between its loads: 0 iff the scan was there at the first look and is at most `size` behind at the last; then the scan pushed at the index, or, exactly `size` behind with a push under way, a mixture of its words with those stored |
| ScanRing.CvRing.Step | src/tt_ring.c:35-51 | each store of the sampling thread is a step of `ScanRingSteps`, and keeps the invariant that the reader relies on |
| ScanRing.CvRing.Sampler | src/tt_core.c:228-240 | any number of such steps: the history only grows, and the scan of a push once begun is the next in it |
| ScanRing.CvRing.Copy | src/tt_ring.c:67-70 | after the loads, one by one, each word is the scan's own or one stored over it while it was `size` behind |
| ScanRing.CvRing.Find | src/tt_ring.c:81-110 | with stores between its loads: what it finds lies in the range; if that is less than a ring behind at the end, 1 means the greatest index at or before the time and 0 that there is none; -1 only for an empty range, a range past the history or a lapped oldest scan; with nobody pushing, -1 if and only if the range is empty, or its oldest scan is overwritten and its newest is overwritten or too late |
| ScanRing.CvRing.Bisect | src/tt_ring.c:101-109 | the loop ends on neighbours on either side of the time, if the one found is less than a ring behind, or on a scan that is unwritten or overwritten |
| ScanRing.OldestOverwritten | src/tt_ring.c:81-94 | a search that returns -1 although the scan it is asked for can be read |
| ScanRingSteps.RunKeepsInv | src/tt_ring.c:35-79 | the invariant that relates slots, history, push in flight and copy in flight holds over every run |
| ScanRingSteps.GetIsExact | src/tt_ring.c:58-79 | under every interleaving, code 0 with a final margin below `size`, or at `size` with no push under way, returns the scan pushed at the index |
| ScanRingSteps.GetAtBoundary | src/tt_ring.c:58-79 | otherwise each word is the scan's own or one already stored by the push in flight |
| ScanRingSteps.PushAlone | src/tt_ring.c:35-51 | the single stores of an undisturbed push leave the new scan in its slot and in the history |
| ScanRingSteps.GetAlone | src/tt_ring.c:58-79 | the single loads of an undisturbed call return the scan pushed at the index iff it is among the newest `size`, as the object's call does |
| ScanRingSteps.TearingRunTears | src/tt_ring.c:72-78 | a run that returns code 0 and a torn scan, for any full ring |
| ScanRingSteps.ExactMargin | src/tt_ring.c:74-78 | exactness for every run holds at margin m if and only if m is below the ring size |
| ScanRingSteps.MisledSearch | src/tt_ring.c:87-98 | on any full ring, a run of pushes and the search's first two reads in which both read later than the time, although the oldest scan of the range was not |
| ScanRingSteps.MisledSearchReached | src/tt_ring.c:35-51 | a state in which that happens is reached from the start, on any ring of three slots or more |
| ScanRingSteps.StillRead | src/tt_ring.c:58-79 | what a read returned stays, as the producer goes on, the scan at its index or a mixture with the one that overwrites it |
| Trigger.Placement | src/tt_core.c:610-617 | an edge in the window lands on the frame whose interval contains it; the clamp to the last frame never applies |
| Trigger.VisibleFrom | src/tt_core.c:608-624 | a frame shows an edge iff the edge precedes the end of that frame (or of the truncated window) |
| Trigger.FrameCutIs | src/tt_core.c:583-584 | a frame's cut is t0 plus its end in frames, or the window's end in whole nanoseconds when that is earlier |
| Trigger.StepLevelIs | src/tt_core.c:619-623 | the step function is 1.0 exactly if the last edge of the channel before the instant has a value other than 0, 0.0 if that value is 0, and what was carried if there is none |
| Trigger.Paint | src/tt_core.c:622-623 | one level from a frame to the end of the block, other frames untouched |
| Trigger.Silence | src/tt_core.c:580-581 | channels the board has not are zero, the others untouched |
| Trigger.TriggerRenderer.constructor | src/tt_core.c:308-346 | no held edges, every channel low |
| Trigger.TriggerRenderer.Block | src/tt_core.c:567-628 | every frame of every requested channel is 1.0 if the last edge of its channel before the end of that frame (or of the window) has a value other than 0, 0.0 if that value is 0, and the carried level when there is none; carried levels, held edges and queue afterwards; -1 changes nothing |
| Trigger.TriggerRenderer.TakeQueued | src/tt_core.c:586-590 | held edges become held followed by what the queue had, 256 in all at most |
| Trigger.TriggerRenderer.Sift | src/tt_core.c:598-625 | working in place keeps exactly the edges at or after the window's end, in order, and leaves the step function in every frame |
| Trigger.TriggerRenderer.SiftOne | src/tt_core.c:599-624 | one edge carries held list, levels and frames from an edge list to that list with the edge added |
| Trigger.TriggerRenderer.CarryOver | src/tt_core.c:592-596 | a block starts on the levels the last one ended on |
| Trigger.TriggerRenderer.PlaceEdge | src/tt_core.c:610-623 | painting one edge, 1.0 for a value other than 0 and 0.0 for 0, extends the step function by it, on its channel alone |
| TriggerRuns.HeldThenRest | src/tt_core.c:598-606 | rendering to a window's end and later the held edges is rendering everything at once |
| TriggerRuns.RunCatchesUp | src/tt_core.c:567-628 | after any contiguous run, levels and held edges are those of all edges drained so far |
| TriggerRuns.ShownFrame | src/tt_core.c:567-628 | every frame of a run's last call is the step function of the edges drained by then |
| TriggerRuns.OutputIsStepFunction | src/tt_core.c:567-628 | with every edge drained in time, frame g of the whole output is the step function of the whole trace: no block size or drain time occurs in it |
| TriggerRuns.OutputShowsEdges | src/tt_core.c:567-628 | so frame g of the output is high, low or low at the start as the last edge before t0 plus g+1 frames says |
| TriggerRuns.LateEdge | src/tt_core.c:610-614 | an edge that arrives late shows from frame 0 of the first block that drains it until a later edge of its channel |
| TriggerRuns.Chunked | src/tt_core.c:583-625 | n frames in one call equal k and then n-k, in frames, levels and held edges |
| FanOut.Inputs.constructor | src/tt_core.c:308-346 | every input starts low |
| FanOut.Inputs.HandleEvents | src/tt_core.c:159-199 | a batch sets each level to its last value, offers all events to one queue and the triggers to the other; accepted plus dropped counts every one |
| FanOut.Inputs.HandleOne | src/tt_core.c:167-198 | one edge: its level bit, its copy in each queue, nothing else |
| FanOut.Inputs.NoteLevel | src/tt_core.c:171-190 | the level word has the edge's bit set to its value and no other bit changed |
| FanOut.Inputs.PollEvents | src/tt_core.c:561-565 | drains its own queue only |
| InputRuns.EdgesConserved | src/tt_core.c:159-199 | over every run of polls, event reads and blocks each polled trigger is rendered, held, queued or dropped exactly once, and levels are the last polled values |
| InputRuns.RenderingIgnoresPollEvents | src/tt_core.c:192-196 | removing every `tt_poll_events` call from a run changes no rendered output and no trigger's fate |
| InputRuns.RenderedIsAfter | src/tt_core.c:567-628 | a block of the whole input side is one call of `TriggerRuns`, in state and output |
| InputRuns.RunIsTriggerRun | src/tt_core.c:159-199 | any run of polls, event reads and blocks renders what a run of block calls over the accepted edges renders |
| InputRuns.EdgesToSamples | src/tt_core.c:567-628 | so on every run with contiguous blocks and timely drains each sample read from a channel is 1.0 or 0.0 as the last accepted edge before the end of its frame has a value other than 0 or not, and 0.0 before the first edge |
| InputRuns.FrontEnd.constructor | src/tt_core.c:308-346 | the objects of a new context stand for the start of a run |
| InputRuns.FrontEnd.Poll | src/tt_core.c:159-199 | handling a batch is the run's poll step, and the queue counts as many drops as the history records |
| InputRuns.FrontEnd.PollEvents | src/tt_core.c:561-565 | reading events is the run's event step |
| InputRuns.FrontEnd.Render | src/tt_core.c:567-628 | rendering a block is the run's render step, and the host's buffers hold its frames |
| CvRender.LookupBrackets | src/tt_ring.c:72-80 | the lookup is the only index at or before the time with all newer scans after it, or the oldest when even that is later |
| CvRender.AdvancesAreWindowScans | src/tt_core.c:468-489 | between two instants the cursor passes exactly the scans stamped after the first and not after the second |
| CvRender.BlendedOnLine | src/tt_core.c:491-498 | in codes and calibration: between two scans the value is to their difference as the time is to theirs; the first scan's value up to it, the second's from it on |
| CvRender.ValueInHull | src/tt_core.c:491-498 | a rendered value lies on that line between the scans that bracket its time, held at the oldest and the newest, and so between their voltages |
| CvRender.RawOnLine | src/tt_core.c:464-498 | every unsmoothed sample of a block is read off that line at t0 plus its frame number times the frame length |
| CvRender.SampleStep | src/tt_core.c:497-504 | every sample is the unsmoothed one, or a step of coef towards it from the sample before |
| CvRender.SmoothedInHull | src/tt_core.c:455-503 | every smoothed sample lies within the range of the scans and of the state carried on from |
| CvRender.Block.PathInRange | src/tt_core.c:464-503 | along any path of scans read, torn ones included, every sample lies within the range of the scans pushed and of the state carried on from |
| CvRender.ChunkedBlock | src/tt_core.c:464-506 | n frames in one call equal k and then n-k, in samples, filter state and last values |
| CvRender.RawSplit | src/tt_core.c:464-498 | the same for the unsmoothed samples |
| CvReader.CvReader.constructor | src/tt_core.c:308-356 | unsmoothed, unprimed, last values 0 |
| CvReader.CvReader.FillLast | src/tt_core.c:406-417 | repeats the last values, zero on channels the board has not |
| CvReader.CvReader.Fetch | src/tt_ring.c:58-79 | with stores in between: the scan at the index, torn at most exactly a ring behind, or a failure that means unwritten or lapped |
| CvReader.CvReader.First | src/tt_core.c:442-447 | the scan a fresh lookup of the block's start finds, if less than a ring behind, or a failure that means lapped |
| CvReader.CvReader.Following | src/tt_core.c:451-452 | the scan after it as read, missing only when there is none or it is lapped |
| CvReader.CvReader.Bracket | src/tt_core.c:440-452 | finds, if less than a ring behind, the scan a fresh lookup would, and its successor; fails only when the search's oldest scan is lapped |
| CvReader.CvReader.Advance | src/tt_core.c:471-489 | with any stores between its loads the cursor moves forward over adjacent scans, and to where a fresh lookup would put it as long as the scan it starts from is less than a ring behind |
| CvReader.CvReader.AimFrame | src/tt_core.c:464-498 | frame f's values lie on the line between the cursor's scans at the frame's time; before frame f the cursor and the values are those of an independent lookup at that time, as long as the block's first scan is less than a ring behind |
| CvReader.CvReader.RenderFrame | src/tt_core.c:497-505 | one frame: one filter step per channel, its sample stored, the last frame's kept |
| CvReader.CvReader.StoreFrame | src/tt_core.c:497-505 | frames so far are the filter's response to the samples so far, one longer |
| CvReader.CvReader.RenderFrames | src/tt_core.c:464-506 | the frame loop yields, frame by frame, the filter's response to the samples along the cursor's path, which are the looked-up ones as long as the block's first scan is less than a ring behind |
| CvReader.CvReader.Prime | src/tt_core.c:458-461 | the filter starts on the first scan once |
| CvReader.CvReader.StartFilter | src/tt_core.c:455-462 | smooths only with a cutoff and a forward clock; the state the first frame starts from |
| CvReader.CvReader.RenderFrom | src/tt_core.c:455-506 | the block from its bracketing pair on: primed, rendered and accounted for along the cursor's path, which is that of the lookups as long as the pair is less than a ring behind |
| CvReader.CvReader.RenderScans | src/tt_core.c:438-509 | the block once there are scans: what `RenderBlock` says, or nothing changed because the search's oldest scan is lapped |
| CvReader.CvReader.RenderBlock | src/tt_core.c:419-509 | at every interleaving of single loads and stores: output and state follow one forward path of adjacent scans, each as pushed or a mixture with the one that overwrites it; every scan less than a ring behind at the start is among those searched; and if the scan the block starts on is less than a ring behind at the end, that scan is the lookup's, output and carried state are those of an independent lookup per frame, smoothed, and the cursor moves exactly from the first frame's scan to the last frame's; on failure last values are repeated and no state changes |
| CvReader.CvReader.ProducedOnLine | src/tt_core.c:464-506 | under that condition every sample in the host's buffer is, in codes, calibration and time, on the line between the two scans that bracket its frame's instant, or, smoothed, a step of coef towards that line from the sample before |
| CvReader.CvReader.ProducedInRange | src/tt_core.c:464-506 | whatever the producer did meanwhile, every sample of a block lies within the range of the scans pushed and of the filter state it began with |
| CvReader.CvReader.RenderRestarted | src/tt_core.c:549-555 | after a change of cutoff a block stays within the range of the scans, whatever the filter held |
| Smoothing.SmoothAppend | src/tt_core.c:499-502 | filtering on is filtering from the state reached |
| Smoothing.StaysInHull | src/tt_core.c:499-502 | over any run the filter stays within its start and its inputs |
| Smoothing.GeometricApproach | src/tt_core.c:499-502 | on a constant input the error after n frames is (1-coef)^n of the first |
| SimLoop.VoltsBack | src/tt_core.c:777-785 | a code within half a step of the inverted calibration reads back within half a step in volts |
| SimLoop.Device.constructor | src/hal_sim.c:45-48 | a device with the given wiring and calibration, every input at mid-scale |
| SimLoop.Device.SetCv | src/tt_core.c:768-786 | stores the nearest code to the clamped ideal on that panel input and changes no other |
| SimLoop.Device.SampleOnce | src/tt_core.c:231-240 | the newest scan is panel-ordered, unused channels 0 |
| SimLoop.Device.SetThenRead | src/tt_core.c:768-786 | volts set and read back through scan, remap and calibration agree within half a code, unless another ring of scans is pushed before they are read |
| Gates.HardwareIsApplied | src/tt_core.c:148-156 | over every run each output is its bit of `gate_applied` |
| Gates.ApplyDrives | src/tt_core.c:125-157 | an apply changes no target and drives a gate to it iff nothing is pending or its time has come |
| Gates.TargetIsLastRequest | src/tt_core.c:690-712 | over every run a gate is bound for its newest request, whatever was pending and whatever other gates do |
| Gates.OutputIsLevelInForce | src/tt_core.c:125-157 | after any run and an apply the output is the level of the newest request that came into force |
| Gates.NeverEarly | src/tt_core.c:131-145 | a pending change stays pending through any calls that neither request its gate nor apply at its time |
| Gates.FollowTarget | src/tt_core.c:646-653 | after following a channel's frames the target is the last sample, or untouched when no sample differs from the start |
| Gates.BlockEndsOnLastSample | src/tt_core.c:641-654 | the last sample decides the gate if and only if nothing was pending, or it agreed with the level word, or some sample differs from that word |
| Gates.PendingRiseSurvives | src/tt_core.c:641-654 | a low gate with a rise pending is still bound to rise after a block of low samples |
| Gates.FrameTimeIs | src/tt_core.c:649 | a crossing's instant is t0 plus its frame number times the frame length, in whole nanoseconds |
| GateTiming.CrossingInForce | src/tt_core.c:646-653 | a crossing comes into force before the next one's request exactly when that instant had passed as it was requested or an apply runs at or after it; otherwise it is pending for that instant and the level word unchanged |
| GateTiming.CrossingReplaced | src/tt_core.c:701-712 | one that is not in force by then never comes into force |
| GateTiming.LastCrossing | src/tt_core.c:646-653 | after a block a channel's last crossing is in force, or pending for its own frame's instant |
| GateTiming.PulseShows | src/tt_core.c:644-653 | a pulse reaches the output exactly when an apply runs between its two requests, at or after its start, or at all if the start was late; else the output stays low |
| GateTiming.PulseLost | src/tt_core.c:646-653 | a one-frame pulse, all of it in the future, that no later apply ever shows |
| GateRace.WholeCalls | src/tt_core.c:131-145 | in whole calls, a request before or after an apply is the outermost case of the interleaving |
| GateRace.ImmediateDuringPromotion | src/tt_core.c:131-145 | exactly when an immediate request is lost among the loads and stores of a promotion |
| GateRace.ScheduledDuringPromotion | src/tt_core.c:131-145 | exactly when a scheduled request is lost |
| GateRace.EarlyDuringPromotion | src/tt_core.c:131-145 | exactly when a scheduled request comes into force before its time |
| GateBank.GateBank.constructor | src/tt_core.c:308-316 | every gate low, nothing pending |
| GateBank.GateBank.GateSet | src/tt_core.c:690-699 | the whole state after an immediate request, -1 for a gate that is not there |
| GateBank.GateBank.GateSetAt | src/tt_core.c:701-712 | the whole state after a scheduled request, immediate when its time has passed |
| GateBank.GateBank.ApplyGates | src/tt_core.c:125-157 | both loops together are one apply of the whole bank |
| GateBank.GateBank.SamplerRuns | src/tt_core.c:228-245 | the sampling thread between two gate calls: any applies, at any clock readings |
| GateBank.GateBank.FollowFrame | src/tt_core.c:646-652 | one frame: a request iff the sample's side of 0.5 changed |
| GateBank.GateBank.FollowChannel | src/tt_core.c:644-653 | one channel's frames, with applies in between, are the run the lemmas speak of; its last crossing is in force, or pending for t0 plus its frames in whole nanoseconds |
| GateBank.GateBank.FollowInput | src/tt_core.c:642-654 | one channel, with applies up to the load of its level: what the block promises for its gate, and every other gate bound as before |
| GateBank.GateBank.GateBlock | src/tt_core.c:630-656 | without a pending change each gate given is bound for its last sample; a change left pending by a crossing inside the block is pending for that crossing's own instant; gates not given keep their target |
| Timebase.Timebase.constructor | src/tt_time.c:47-66 | defaults, period, b*b = 2c, and c < b iff the bandwidth is below the block rate over sqrt(2) pi |
| Timebase.Timebase.Tick | src/tt_time.c:68-110 | the whole loop state and the reported time after a callback, every branch |
| Timebase.ReseedsIff | src/tt_time.c:80-93 | a new block size re-seeds iff it is more than twice or less than half the old one |
| Timebase.ResizeKeepsFrameTime | src/tt_time.c:86-92 | a resize keeps the time per frame: new period times old frames is old period times new frames; the callback is the new block's start |
| Timebase.ReportedIs | src/tt_time.c:73-109 | the first callback, a resize and a gap of more than ten periods report the callback's time and expect the next block a period later; any other reports the prediction, cut to whole nanoseconds and at 0 |
| Timebase.EnergyScales | src/tt_time.c:96-107 | a tracking step on an ideal clock scales the energy by exactly 1-b+c |
| Timebase.EnergyBounds | src/tt_time.c:64-65 | with b*b = 2c the energy is positive and bounds phase and period error |
| Timebase.CrossBound | src/tt_time.c:64-65 | Cauchy-Schwarz for the energy, which lets jitter add like a length |
| TimebaseRuns.LockedTracks | src/tt_time.c:83-104 | a locked loop takes neither re-seed branch at any callback within the jitter |
| TimebaseRuns.TickKeepsLock | src/tt_time.c:96-107 | the region q*r + c*J <= r is invariant under every callback within jitter J |
| TimebaseRuns.FirstTickLocks | src/tt_time.c:73-78 | the first callback puts a fresh loop in that region |
| TimebaseRuns.LockedForever | src/tt_time.c:68-110 | every run of jittery callbacks from a state of that region stays in it |
| TimebaseRuns.BoundedForever | src/tt_time.c:68-110 | from any warmed state of small enough energy phase and period error stay bounded and no relock is ever taken, in any run |
| TimebaseRuns.ReportedIsAccurate | src/tt_time.c:96-109 | on such a run the reported block start is within the phase bound and one nanosecond of the true one |
| TimebaseRuns.ClockShift | src/tt_time.c:96-107 | a shift of the clock's phase and period within the room the region has leaves the loop locked to the new clock |
| TimebaseRuns.EnergyOnRegularClock | src/tt_time.c:96-107 | on a regular clock the energy after k callbacks is (1-b+c)^k times what it was, from any locked state |
| TimebaseRuns.Converges | src/tt_time.c:37-40 | on a regular clock period and phase converge to the true ones, from any locked state |
| TimebaseRuns.ReseedIsFreshStart | src/tt_time.c:83-104 | a resize or a stall leaves the loop as the first callback leaves a new one with the same time per frame, or the same period, so the results apply again |
| TimebaseRuns.FreshRun | src/tt_time.c:68-110 | after its first callback a new loop is locked and the rest of the run is a run from there |
| TimebaseRuns.FreshBounded | src/tt_time.c:68-110 | so a new loop within a given tuning error is bounded for ever |
| TimebaseRuns.FreshEnergy | src/tt_time.c:68-107 | and on a regular clock its energy is (1-b+c)^k times the squared tuning error |
| TimebaseRuns.JitterTestSetting | src/tt_time.c:47-109 | with the coefficients computed for 64 frames at 48 kHz and 0.5 Hz, and 200 us of jitter: never a relock, period within 1.7 us and block start within 406 us for ever; so the hypotheses of the results above can be met |
| OscFormat.Layout | software/OSC client/tinyosc.c:164-176 | a message is whole words: address, zeros, comma on a word, tags, zeros, arguments on a word |
| OscFormat.FormatBytes | software/OSC client/tinyosc.c:171-181 | byte by byte: a comma on the first multiple of 4 behind the address, then i, h, t, s, b, m, f, d, T, F, N or I for each argument by its kind, then a NUL |
| OscFormat.KnownTags | software/OSC client/tinyosc.c:178-240 | the tags the library knows are those of these kinds and no others |
| OscFormat.ArgAt | software/OSC client/tinyosc.c:178-240 | each argument starts on a word, right after the padded ones before it |
| OscFormat.PaddedLength | software/OSC client/tinyosc.c:176-230 | padding is by 0 to 3 zeros to a whole word |
| OscFormat.WordOf | software/OSC client/tinyosc.c:96-101 | four bytes are the big-endian form of one word, and of no other |
| OscFormat.LongWordOf | software/OSC client/tinyosc.c:103-107 | the same for eight bytes |
| OscFormat.BigEndian32 | software/OSC client/tinyosc.c:183-215 | the four bytes of a word are its digits to the base 256, most significant first |
| OscFormat.BigEndian64 | software/OSC client/tinyosc.c:197-235 | the same for the eight bytes of a long word |
| OscWriter.SucceedsIff | software/OSC client/tinyosc.c:165-243 | in a buffer of whole words writing succeeds iff every tag is known and the padded message fits; elsewhere the slack is the last padding |
| OscWriter.StoreArg | software/OSC client/tinyosc.c:178-240 | each tag's bytes, padded, behind what is written; the failure code otherwise |
| OscWriter.StoreHeader | software/OSC client/tinyosc.c:168-176 | address and format, padded, iff both fit |
| OscWriter.StoreArgs | software/OSC client/tinyosc.c:178-242 | all arguments, or the first that cannot be written and why |
| OscWriter.WriteMessage | software/OSC client/tinyosc.c:165-243 | the buffer holds exactly the encoding and then zeros; each of the four failures iff its cause; a byte outside changes iff the address fits and its padding reaches the end, and then it is the byte there, now a comma |
| OscWriter.CommaBehindBuffer | software/OSC client/tinyosc.c:168-174 | a two-byte address in a four-byte buffer: the byte behind the buffer becomes a comma |
| OscReader.Parts | software/OSC client/tinyosc.c:35-54 | scanning for NUL, comma and NUL finds the end of the address, the format and its end, commas in the address included |
| OscReader.Reader.Parse | software/OSC client/tinyosc.c:35-54 | for any memory that holds the characters scanned for, and any signed length: which error, and where format and read head point |
| OscReader.Reader.NextInt32 | software/OSC client/tinyosc.c:96-101 | the number whose encoding the next four bytes are |
| OscReader.Reader.NextInt64 | software/OSC client/tinyosc.c:103-107 | the number whose encoding the next eight bytes are |
| OscReader.Reader.NextTimetag | software/OSC client/tinyosc.c:109-111 | the same, unsigned |
| OscReader.Reader.NextFloat | software/OSC client/tinyosc.c:113-118 | the float's bits |
| OscReader.Reader.NextDouble | software/OSC client/tinyosc.c:120-124 | the double's bits |
| OscReader.Reader.NextString | software/OSC client/tinyosc.c:126-133 | the string up to its NUL and the head behind its padding, or nothing when it leaves the message |
| OscReader.Reader.NextBlob | software/OSC client/tinyosc.c:135-146 | the blob and the head behind its padding, or nothing when it leaves the message |
| OscReader.MidiBytes | software/OSC client/tinyosc.c:148-152 | the four bytes are a MIDI argument's iff they are its port, status and data bytes in that order |
| OscReader.Reader.ReadArg | software/OSC client/tinyosc.c:283-309 | the getter chosen by a tag returns the very argument that was encoded and moves past its padding |
| OscReader.Reader.Open | software/OSC client/tinyosc.c:35-54 | parsing an encoded message succeeds and stands at its first argument |
| OscReader.Reader.ReadMessage | software/OSC client/tinyosc.c:277-311 | address and all arguments of an encoded message come back, and the head ends at its end |
| OscBundle.PacketSize | software/OSC client/tinyosc.c:245-257 | a bundle is 16 plus, for every message, 4 and its length, whole words |
| OscBundle.MessageOrBundle | software/OSC client/tinyosc.c:56-59 | a message passes for a bundle if and only if its address is "#bundle" |
| OscBundle.Bundle.Write | software/OSC client/tinyosc.c:154-162 | an empty bundle with its time tag |
| OscBundle.Bundle.WriteNextMessage | software/OSC client/tinyosc.c:245-257 | appends the message, earlier bytes untouched; every failure's effect; the bundle is whole afterwards iff the message fits, or all before its first unknown tag does |
| OscBundle.WriteElement | software/OSC client/tinyosc.c:250-253 | size and message stand behind what was there |
| OscBundle.Bundle.IsBundle | software/OSC client/tinyosc.c:56-59 | whether the eight bytes are the bundle mark |
| OscBundle.Bundle.Parse | software/OSC client/tinyosc.c:61-66 | a whole bundle with nothing read yet |
| OscBundle.Bundle.GetTimetag | software/OSC client/tinyosc.c:68-70 | the time tag that was written |
| OscBundle.Bundle.GetNextMessage | software/OSC client/tinyosc.c:76-82 | for any size word: whether there is more, how far the head moves, what the parse found; a size past 2^31, as a failed write leaves, is refused and changes nothing but the head |
| OscBundle.Bundle.Next | software/OSC client/tinyosc.c:76-82 | in a whole bundle: the next message, opened, and none after the last |
| OscBundle.ElementAt | software/OSC client/tinyosc.c:76-82 | element k stands where the elements before it end, its size before it |
| OscRoundTrip.MessageRoundTrip | software/OSC client/tinyosc.c:259-266 | for any address and arguments that fit, what is written is what the getters return; in a buffer of whole words writing fails iff it does not fit |
| OscRoundTrip.BundleRoundTrip | software/OSC client/tinyosc.c:245-257 | for any messages and a buffer of any length: all fit iff the total does, and then iterating returns them in order and stops |
| CalFile.SkipBlanks | src/tt_cal.c:58-63 | stands on the first character that is no space, tab, line feed or carriage return |
| CalFile.FindChar | src/tt_cal.c:72-73 | the first such character in the stretch, or its end |
| CalFile.Find | src/tt_cal.c:65-83 | the value of the first use of the key before the end, if there is one |
| CalFile.FindsFirst | src/tt_cal.c:65-83 | the search succeeds iff some quote begins the key, and then with the first that does |
| CalFile.TokenIsLongest | src/tt_cal.c:93-97 | a token is all the signs, dots, digits and exponent letters at the front, 63 at most in a file |
| CalFile.MatchKey | src/tt_cal.c:75-79 | whether a quote begins the key, closed and followed by a colon, and where its value is |
| CalFile.ReadNumber | src/tt_cal.c:85-104 | the longest run of number characters, 63 at most, as a number |
| CalFile.ReadObject | src/tt_cal.c:155-159 | one channel: each key's number, or what was there |
| CalFile.Load | src/tt_cal.c:106-172 | on any text it ends; -1 leaves the calibration as it was; channels and keys that are absent, or no number, keep their values |
| CalFile.LoadObjects | src/tt_cal.c:140-163 | object by object, at most eight, up to the closing bracket |
| CalRoundTrip.Save | src/tt_cal.c:222-232 | the text of the file for the channels' printed tokens |
| CalRoundTrip.FindsArray | src/tt_cal.c:137-138 | the search for the array passes over the comment, which names both keys |
| CalRoundTrip.LineYields | src/tt_cal.c:226-230 | a printed line yields its two tokens and nothing else |
| CalRoundTrip.FormsReadable | src/tt_cal.c:85-104 | whatever `%.6f` and `%.9g` print for a finite number, negative ones and exponents included, is read back whole |
| CalRoundTrip.ScaleRead | src/tt_cal.c:155-159 | an object that gives a printed scale is read as giving that scale |
| CalRoundTrip.NominalScale | src/tt_cal.c:26 | the nominal scale, a negative number, is such a number; `SmallScale`, `LargeScale`, `MiddleOffset` and `NegativeOffset` give more |
| CalRoundTrip.TokensRecovered | src/tt_cal.c:137-163 | scanning the printed file recovers exactly the printed tokens of every channel |
| CalRoundTrip.SaveThenLoad | src/tt_cal.c:202-239 | for any printed forms of the two formats, saving and loading gives every channel the numbers its tokens stand for, and leaves what was there for a token that is no number |

## Left out

- Weak memory: steps are sequentially consistent, so fences and memory orders are not modelled; neither are allocation failure and null contexts.
- IEEE rounding, NaN and infinities of `float` and `double`: samples, times of frames and the loop's state are reals. A zero period in the loop is treated as the NaN ratio it produces.
- The wrap of the 64-bit scan index and drop counter, and clocks past 2^64 ns.
- The hardware layer, threads, sleeping, priorities and statistics: the environment supplies scans and edges and takes gate writes.
- Gate requests and applies are whole steps in `Gates`, `GateBank` and `GateTiming`; `GateRace` takes one request and one promotion of its gate apart, not runs of them.
- Output buffers are taken to be distinct arrays, and apart from the reader's own state.
- TriggerRuns.OutputIsStepFunction: assumes that all of the board's trigger channels are requested in every call and that edges of one channel come in time order; held and queued edges together fit the held list.
- InputRuns.FrontEnd.Render: takes a board with all four trigger channels and a buffer for each.
- CvReader.CvReader.RenderBlock: when the scan the block starts on falls a ring or more behind, agreement with the lookup is not promised, and `ScanRingSteps.MisledSearch` shows one way it fails; the path and range clauses still hold.
- OscWriter.WriteMessage: buffers are at most 0x7FFFFFF8 bytes, so that the 32-bit sums of positions cannot wrap, and the caller owns the byte the comma is stored in.
- OscBundle.Bundle.WriteNextMessage: with one to three bytes left the source hands the writer a negative size, and clears memory without bound; the model sets `overrun` and promises nothing of that call.
- OscReader.Reader.ReadArg: speaks of bytes that encode an argument; what the getters do on other bytes is in their own contracts.
- OSC pattern matching and time tags as times are not part of the codec; printing of messages is modelled only in the order in which it reads them.
- File opening, directories, renaming and `strtod` itself; `tt_cal_default_path`, `tt_cal_nominal`.
- `tt_cv_latest`, `tt_cv_raw`, button timing, board tables and configuration: they would only add easy members.
- The Pd, ChucK, JACK and Csound bindings, the tools and the legacy externals.
