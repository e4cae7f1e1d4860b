# Models and proofs for the voice stack's deterministic cores

This project models, in Dafny, the parts of the WebRTC voice stack that decide what is heard and in
which order: the conference mixer (elastic queues, media clock, listener positions, groups, summing
bus, outbound pacer), the streaming resampler, the ordering protocols of the speech crate (event bus,
deferred finals, inbound pump), the dependency closure of the native build contract, and the rewriting
of ICE server URLs. `dafny verify dfyconfig.toml` checks all of it.

Objects that the code updates in place are classes whose methods are proved against transition
functions on values; what the code promises over whole runs is proved about those functions.

| module | what it models |
|---|---|
| `Frames`, `Pcm`, `Sequences`, `Wrappers` | frames as terms over merge and fade, little-endian samples, reordering of sequences |
| `Elastic`, `ElasticRuns` | the adaptive per-source queue, and any interleaving of arrivals and ticks |
| `MixModel`, `MediaClock`, `Listeners`, `Traces` | the media clock, what each listener hears, and the bounded histories against a full record |
| `MixGraphs` | the mix graph object: rendering, and exclusive groups |
| `MixBus`, `Pacer`, `PacedListeners` | the summing bus and its limiter; which outbound slots are due, and what becomes of those left out |
| `Resampler` | streaming mono to 48 kHz stereo |
| `EventBus`, `DeferredFinals`, `InboundPump` | event order with open finals, finalize alignment, the two pump tasks |
| `DependencyClosure`, `IceUrls` | worklist reachability; STUN and TURN URLs (RFC 7064 section 3.1, RFC 7065 section 3.1) |

Two results span the mixer. `Traces.EveryFrameFromTheStart` follows every frame from its arrival in a
queue to a listener, in any run from the empty graph: for a source that reaches the listener at each of
its renders, if the listener's steps skip nothing, what was pushed to the source is, in order and exactly
once, played before the tick the listener joined at, heard, still to be heard, or queued. (At a render
that mutes, routes or the mixing switch keep the source from, nothing of it is heard:
`Traces.DeliveredIsRecorded` gives what is heard in general.) And `MixGraphs.MixGraph.RenderOutput` gives
a render's output independently of the order in which the hash map of sources is visited;
`MixGraphs.OwnVoiceIsNotHeard` shows that the listener's own source has no part in it.

Where comments and code disagree, the model follows the code:

- `crates/mixer/src/graph.rs:390` and `:417` say that a participant in no group hears nobody. An absent
  allow-list means hearing everyone (`:216-218`, `:650`). So one that points at no group hears everyone
  but for mutes (`MixGraphs.UngroupedHearsEveryone`), always so after it was removed from its group
  (`MixGraphs.MixGraph.RemoveFromGroup`); a member alone in its group may hear everyone too, and
  `MixGraphs.MemberHearsItsGroup` states exactly what a member may hear; and one left out when its group's
  members are replaced keeps the allow-list it had (`MixGraphs.MixGraph.SetGroupMembers`). A listener that was
  allowed one source only may hear everyone once that source is removed (`:153-159`,
  `MixGraphs.ForgettingOpensEmptyLists`).
- `crates/mixer/src/graph.rs:25-26` names one place to go on from when a listener's next tick is no longer
  remembered, the oldest remembered tick. `Listeners.StepCatchesUp` gives the exact condition under which
  the code goes there; `Listeners.JumpsBesideTheOldestHeld` has a render that goes to the newest tick
  instead (`:594-597`) and one whose own tick is gone and that stops before the history (`:591-593`).
- `crates/mixer/src/elastic.rs:20-22` takes the frames a listener receives to be the played ones less its
  skipped ones. Skipped counts ticks, silent ones included, so that is a lower bound, and exact if and only
  if every skipped tick played source audio: `Traces.HeardIsPlayedLessMissed`. `Traces.SkippedSilence` has a
  run with 15 skipped ticks of a source that never played anything.
- `crates/mixer/src/elastic.rs:7-8` lets prefill end once the oldest frame has waited `target` ticks. A
  talk-spurt that begins while frames are queued starts the count again (`:271-277`). So the rule holds for
  a frame with no such restart since it came, and otherwise only as a necessary condition:
  `ElasticRuns.PlaysWhenOldestWaited`, with a frame held back longer in `ElasticRuns.RestartHoldsOldest`.
- `crates/mixer/src/pacer.rs:7-9` says that the slots a pacer leaves out are beyond the mix history and
  counted as skipped. With the clock kept going by other listeners they are all still held, and they
  are counted if and only if at least 12 slots were due (`PacedListeners.SkippedSlotsAreCounted`); with no
  other listener none is ever counted (`PacedListeners.AloneNothingIsCounted`).
- `crates/mixer/src/graph.rs:633-634` says that all listeners rendering in one tick mix the same frame of a
  source. That holds for those at most one tick behind, over any run (`Traces.SameTickSameFrame`); one that
  is further behind merges or jumps (`Traces.KeepingUpPlaysTick`).
- `crates/speech/src/stt_deferred.rs:113` says that every finalize older than the bound is closed. That
  holds exactly when no such finalize waits behind a younger one: `DeferredFinals.ExpireClosesAllExpired`,
  with a run in which one does in `DeferredFinals.ExpireCanMissUnordered`.
- `crates/speech/src/events.rs:575` says that filling a slot fills a reserved one. Nothing enforces it:
  filling a slot that is not open drops the given event or overwrites another one
  (`EventBus.UnreservedFillIsDropped`, `EventBus.SecondFillOverwrites`), and `EventBus.EventsKept` shows
  that this is the only way an event is lost. `EventBus.OpenMeansReservedOnce` says which callers are safe.
- `crates/core/src/ice_resolve.rs:174` says that it is the unresolvable URLs that are dropped. One whose
  cached address expires between the two loops of a pass is dropped without a lookup:
  `IceUrls.CachedAddressCanExpire`, and `IceUrls.RewrittenWhen` for the exact condition.

## Model

| member | source | states |
|---|---|---|
| Elastic.ElasticFrameQueue.constructor | crates/mixer/src/elastic.rs:116-137 | a new queue is empty, in prefill, at the lowest target, and satisfies the accounting invariant |
| Elastic.ElasticFrameQueue.PushFrame | crates/mixer/src/elastic.rs:140-156 | the whole state after a push; the frame is appended to what the queue carries, an invalid one changes nothing, and merging at capacity loses nothing |
| Elastic.ElasticFrameQueue.NoteArrival | crates/mixer/src/elastic.rs:268-291 | the jitter estimate, target and prefill state after an arrival, pauses included; otherwise the estimate goes a quarter of the way up or 1/32 of the way down to the distance of the gap from 20 ms |
| Elastic.ArrivalMovesEstimate | crates/mixer/src/elastic.rs:278-286 | by the times alone: within a talk-spurt the estimate goes exactly a quarter of the way up, or 1/32 of the way down, towards the distance of the gap from 20 ms |
| Elastic.EarlyAndLateAlike | crates/mixer/src/elastic.rs:279-286 | an arrival that comes early and one that comes as much late move any estimate alike |
| Elastic.TargetCovers | crates/mixer/src/elastic.rs:287-288 | the target is one frame more than covers the estimate, between 2 and 8 |
| Elastic.OverflowMergesOldest | crates/mixer/src/elastic.rs:140-156 | at capacity exactly the two oldest frames are merged, all others stay in order, the new one last |
| Elastic.IllSizedIsIgnored | crates/mixer/src/elastic.rs:140-146 | a frame of the wrong size changes nothing, not even the arrival time; any other is counted |
| Elastic.ElasticFrameQueue.PopFrame | crates/mixer/src/elastic.rs:177-214 | the whole state and the output of a tick; the output carries exactly the sources that leave the queue |
| Elastic.ElasticFrameQueue.TakeFrame | crates/mixer/src/elastic.rs:191-213 | the state and output of a tick outside prefill: slimming counter, single or merged frame, or underrun |
| Elastic.ElasticFrameQueue.Conceal | crates/mixer/src/elastic.rs:247-266 | the state and output of an underrun: one faded replay, then silence, then prefill again |
| Elastic.PushKeepsInv | crates/mixer/src/elastic.rs:20-23 | a push keeps pushed = played + compressed + overflow_compressed + depth, the capacity, the jitter range 0..180 ms and the target range |
| Elastic.PopKeepsInv | crates/mixer/src/elastic.rs:20-23 | a tick keeps the same invariant, and concealed frames never exceed played ones |
| Elastic.PushKeepsSources | crates/mixer/src/elastic.rs:139-156 | after a push the queue carries what it carried, in order, plus the accepted frame, also when it overflows |
| Elastic.PopKeepsSources | crates/mixer/src/elastic.rs:175-214 | a tick moves the oldest carried frames to its output; slimming merges, and loses, duplicates or swaps nothing |
| Elastic.SmoothedBounds | crates/mixer/src/elastic.rs:279-286 | smoothing stays within the range of the old estimate and the new deviation |
| Elastic.PlaysWhen | crates/mixer/src/elastic.rs:178-190 | a tick plays source audio if and only if there is some and prefill is over, filled, or has counted target ticks with a frame queued |
| ElasticRuns.NothingLostDuplicatedOrReordered | crates/mixer/src/elastic.rs:20-23 | over any arrivals and ticks from a new queue: outputs then queue carry exactly the accepted frames in order; every frame is counted once; capacity, target and jitter bounds hold |
| ElasticRuns.RunKeepsSources | crates/mixer/src/elastic.rs:140-214 | the same conservation from any state |
| ElasticRuns.ConcealmentsAreSeparated | crates/mixer/src/elastic.rs:247-260 | between two concealment outputs there is a played one |
| ElasticRuns.ConcealmentReplaysLastPlayed | crates/mixer/src/elastic.rs:249-256 | a concealment output is the fade of the last frame played before it |
| ElasticRuns.UnderrunFadesOut | crates/mixer/src/elastic.rs:15-16 | three empty ticks: the last frame faded once, silence, silence, and prefill again from the third |
| ElasticRuns.PauseRestartsPrefill | crates/mixer/src/elastic.rs:268-278 | a pause keeps estimate and target, and the new talk-spurt plays at once only if `target` frames are queued |
| ElasticRuns.DelayIsBounded | crates/mixer/src/elastic.rs:191-208 | with an unchanged target and at most one arrival per tick, every tick from the 56th on finds at most target + 2 frames, from any reachable state |
| ElasticRuns.SlimsOnTenthTick | crates/mixer/src/elastic.rs:12-13 | after any run from a new queue, a tick takes two frames for one if and only if it and the nine ticks before it, prefill or not, find more than target + 2 |
| ElasticRuns.ShortBurstsAreNotCompressed | crates/mixer/src/elastic.rs:191-208 | over a run, as many frames are compressed as ticks end a row of ten over the margin; none if and only if there is no such row |
| ElasticRuns.PopKeepsCounting | crates/mixer/src/elastic.rs:178-195 | a tick over the margin is counted and any other clears the count, because no tick is held by prefill while a row is counted |
| ElasticRuns.PlaysWhenOldestWaited | crates/mixer/src/elastic.rs:7-8 | after any run, a tick plays only if prefill is over, filled, or as long as the oldest frame has waited; and whenever so, if no talk-spurt began while that frame was queued |
| ElasticRuns.RestartHoldsOldest | crates/mixer/src/elastic.rs:268-278 | a run in which the oldest frame has waited target ticks and is held back, because a new talk-spurt restarted the count |
| ElasticRuns.PrefillEnds | crates/mixer/src/elastic.rs:178-189 | a non-empty queue plays within 8 ticks unless a new talk-spurt restarts prefill |
| ElasticRuns.TargetRecovers | crates/mixer/src/elastic.rs:268-291 | from any reachable state, 70 arrivals exactly 20 ms apart bring the target back to 2 |
| ElasticRuns.PairsDriveEstimate | crates/mixer/src/elastic.rs:279-286 | over any run in which frames come in pairs every 40 ms the estimate stays within 0..20 ms and each frame closes a quarter of what is left to 20 |
| ElasticRuns.CloserVanishes | crates/mixer/src/elastic.rs:279-286 | what is left gets below any bound |
| ElasticRuns.ConcealsWhen | crates/mixer/src/elastic.rs:247-260 | a tick replays the last frame exactly when it is the first empty one after something was played |
| ElasticRuns.CountersCountOutputs | crates/mixer/src/elastic.rs:177-266 | over any run the played and concealed counters count the played and the faded outputs |
| MediaClock.IntermediateAdvance | crates/mixer/src/graph.rs:471-498 | an intermediate advance does not change what a later one of at most 8 ticks ends in |
| MediaClock.AdvancesCompose | crates/mixer/src/graph.rs:471-498 | an advance of at most 8 ticks, split into any advances, ends in the same clock, tick count, queues and histories |
| MediaClock.TicksMatchClock | crates/mixer/src/graph.rs:468-487 | over any advances, the time the clock moved less 20 ms times the tick count is exactly the sum, over the resyncs, of the elapsed time less one tick; zero if and only if no advance resynced |
| MediaClock.TicksOfAdvance | crates/mixer/src/graph.rs:471-487 | by the times alone: an advance plays every whole tick since the clock, at most 8; when more have elapsed exactly one, and the clock is then now |
| MediaClock.ClockFromFirstTime | crates/mixer/src/graph.rs:431-446 | in a run of the whole graph the clock starts at the first push or render, whichever comes first, and moves with the renders |
| MediaClock.RendersMoveTheClock | crates/mixer/src/graph.rs:637-638 | in a run of the whole graph the clock is that of an advance at each render time |
| MediaClock.AdvanceReachesNow | crates/mixer/src/graph.rs:471-487 | after an advance not before the clock, the clock is less than 20 ms before now |
| MixModel.NextStep | crates/mixer/src/graph.rs:580-628 | a step never moves the cursor back or past the tick count; its lags never underflow |
| Listeners.StepAccounts | crates/mixer/src/graph.rs:587-628 | one render: passed ticks are heard in order or counted as skipped, exactly once; heard ticks are still held; the cursor stops at the render's own newest tick; nothing is heard exactly when that tick is gone; merged are the heard ticks beyond the first |
| Listeners.NothingNewIsRepeated | crates/mixer/src/graph.rs:580-586 | a listener that has heard all its render may hear, or more, repeats the tick it is at and hears nothing new |
| Listeners.RemovalForgetsPosition | crates/mixer/src/graph.rs:143-145 | a removed listener has no position, and starts anew at the newest tick; all others keep theirs |
| Listeners.CountersStartAtZero | crates/mixer/src/graph.rs:137-140 | the listener counters and the history of a newly registered source start empty |
| Listeners.NewestIsLatestDue | crates/mixer/src/graph.rs:556-562 | the newest tick a render may hear is the latest one due by its own time |
| Listeners.StepCatchesUp | crates/mixer/src/graph.rs:562-570 | every render ends less than 8 ticks behind; it jumps only when forced; a listener whose next tick is gone goes to the oldest held tick if and only if its newest tick is held and less than 8 ticks beyond that one |
| Listeners.JumpsBesideTheOldestHeld | crates/mixer/src/graph.rs:588-599 | a jump to the newest tick past 17 held ones, and one that ends before the oldest held tick |
| Listeners.HeardOrCounted | crates/mixer/src/graph.rs:571-629 | over any run of renders, pushes and registrations by anyone: the cursor moves forward within the tick count and every tick it passes is heard once, in increasing order, or counted once |
| Listeners.JoiningHearsTheNewest | crates/mixer/src/graph.rs:571-579 | a listener without a position starts at, and hears, the newest tick its render may hear |
| Listeners.HeardOrCountedSinceJoining | crates/mixer/src/graph.rs:571-629 | the same from the render that registers a listener, also again after a removal, with the tick heard there |
| Listeners.MissedIsNotHeard | crates/mixer/src/graph.rs:587-628 | the ticks in a range that are not heard, each once |
| Listeners.NothingSkippedAllHeard | crates/mixer/src/graph.rs:571-629 | a listener with no skipped ticks heard every tick it passed, in order |
| Listeners.NeverMergedOrSkippedUncounted | crates/mixer/src/graph.rs:679-699 | a source's two listener counters equal the merged and skipped ticks of all renders that heard it |
| Listeners.LateListenerRecovers | crates/mixer/src/graph.rs:549-555 | 2 to 8 ticks late, a listener then on schedule merges in lag - 1 renders, skips nothing, and is on the newest tick from then on |
| Listeners.LateListenerRecoversInRun | crates/mixer/src/graph.rs:607-628 | the same in any run of the graph, for the listener's renders among all other events |
| Listeners.OnTimeListenerRecoversInRun | crates/mixer/src/graph.rs:549-555 | the same in any run without a resync whose renders by the listener are 20 ms apart and not before the clock |
| Listeners.ViewsDescribeRun | crates/mixer/src/graph.rs:637-639 | in any run, a listener's steps depend only on what its own renders see of the clock |
| Listeners.SlotsNewest | crates/mixer/src/graph.rs:556-562 | on a clock that never resynced, renders whose times are 20 ms apart may each hear one tick more than the one before |
| Listeners.SlotsHearTheirOwnTick | crates/mixer/src/graph.rs:561-565 | such renders, in a burst or on time, hear exactly their slot's new tick each while it is held |
| Listeners.SlotsHearTheirOwnTickInRun | crates/mixer/src/graph.rs:549-565 | the same in any run of the graph without a resync, for renders 20 ms apart that start at the listener's next tick and stay within the history |
| Traces.RunAgrees | crates/mixer/src/graph.rs:488-496 | after any events each bounded history is the latest part of the source's full record |
| Traces.HistoryServesRecord | crates/mixer/src/graph.rs:64-72 | within the window, a lookup by lag gives the frame the source played at that tick, or silence before its registration |
| Traces.ResyncPlaysOneFrame | crates/mixer/src/graph.rs:478-496 | after more than 8 ticks without an advance, the next one adds exactly one tick, and exactly one frame to the record of every source |
| Traces.AdvancePlaysEveryTick | crates/mixer/src/graph.rs:478-496 | an advance adds to the record of every source as many frames as it processes ticks, given by the times alone |
| Traces.StepDelivers | crates/mixer/src/graph.rs:666-674 | what a step plays of a source carries exactly the record's frames at the newly heard ticks, and a repeat nothing new |
| Traces.DeliveredIsRecorded | crates/mixer/src/graph.rs:644-677 | over any run, what a listener hears of a source is the source's record at the ticks heard in renders that the source reaches, in order |
| Traces.HeardFromSome | crates/mixer/src/graph.rs:644-661 | those ticks are strictly increasing and within what the listener passed |
| Traces.RunsFromEmpty | crates/mixer/src/graph.rs:106-128 | from the empty graph, after any events, histories agree with the record and the record holds everything pushed |
| Traces.RunTakesIn | crates/mixer/src/graph.rs:431-446 | over any run, a source's record and queue carry exactly the frames pushed to it, in order |
| Traces.EveryFrameIsHeardInOrder | crates/mixer/src/graph.rs:464-498 | arrival to listener: of a source that always reaches it, with nothing skipped, every frame is in order and once played before, heard, yet to be heard, or queued |
| Traces.EveryFrameSinceJoining | crates/mixer/src/graph.rs:571-585 | the same from the render that registers the listener, for the first time or again |
| Traces.EveryFrameFromTheStart | crates/mixer/src/graph.rs:431-498 | the same in any run from the empty graph, over all frames ever pushed to the source |
| Traces.PlayedCountersFromEmpty | crates/mixer/src/elastic.rs:20-21 | over any run, a source's played counter counts the played frames of its record |
| Traces.HeardIsPlayedLessMissed | crates/mixer/src/elastic.rs:20-22 | what a listener heard is what was played less what was played at as many missed ticks as were counted skipped; equal to played less skipped if and only if those all played |
| Traces.SkippedSilence | crates/mixer/src/elastic.rs:20-22 | a run from the empty graph with 15 ticks counted as skipped and nothing played |
| Traces.KeepingUpPlaysTick | crates/mixer/src/graph.rs:631-634 | of listeners not past a held tick, exactly those at most one behind play just that tick |
| Traces.SameTickSameFrame | crates/mixer/src/graph.rs:631-634 | two such listeners, anywhere in a run, hear the same frame of every source |
| Traces.PlayedCounterByPart | crates/mixer/src/elastic.rs:20-22 | the played counter, cut at two positions of a listener |
| MixGraphs.MixGraph.constructor | crates/mixer/src/graph.rs:106-128 | a new graph is empty, mixes, and has isolated groups |
| MixGraphs.MixGraph.Register | crates/mixer/src/graph.rs:137-140 | registering keeps an existing source and adds a new one otherwise |
| MixGraphs.MixGraph.PushFrameAt | crates/mixer/src/graph.rs:431-446 | a push starts the clock if needed, registers the source and pushes into its queue only |
| MixGraphs.MixGraph.AdvanceTo | crates/mixer/src/graph.rs:471-498 | the loops over sources and ticks reach the state of the media model; the first call only sets the clock; later ones add every elapsed tick up to 8, and exactly one when more have elapsed |
| MixGraphs.MixGraph.NextListenerStep | crates/mixer/src/graph.rs:571-585 | the step and the listener's new position, all other positions unchanged |
| MixGraphs.MixGraph.MoveCursor | crates/mixer/src/graph.rs:586-629 | the branches of the step compute the model's step |
| MixGraphs.MixGraph.RenderOutput | crates/mixer/src/graph.rs:637-702 | a render moves the media state as modelled, and its frame is the mix of every audible source's heard frame, whatever the visiting order; silence while mixing is off; the listener's own source is never audible |
| MixGraphs.MixGraph.CollectSources | crates/mixer/src/graph.rs:644-677 | the sources collected are exactly the audible ones, each once, the listener's own never |
| MixGraphs.OwnVoiceIsNotHeard | crates/mixer/src/graph.rs:646-649 | two states that differ at most in the listener's own source and in mutes of that source render the same frame |
| MixGraphs.AloneIsSilence | crates/mixer/src/graph.rs:646-649 | a listener with no other source in the room renders silence, whatever its own source holds |
| MixGraphs.OneSpeakerIsHeard | crates/mixer/src/graph.rs:646-701 | with one audible source the frame is the mix of what the step hears of that source |
| MixGraphs.MixGraph.CreditListener | crates/mixer/src/graph.rs:679-699 | each heard source is credited with the step's merged and skipped ticks, no other |
| MixGraphs.VisitOrderDoesNotMatter | crates/mixer/src/graph.rs:646-701 | any two visiting orders of up to 65535 sources give the same frame |
| MixGraphs.MemberHearsItsGroup | crates/mixer/src/graph.rs:402-415 | a member may hear another participant if and only if it is in the same group or the member is alone in its group |
| MixGraphs.MemberHearsUnmutedMembers | crates/mixer/src/graph.rs:646-664 | exactly whom a group member hears, by membership and mutes alone: the sources of its other members, or of everyone else if it has none, that no mute for all or by this listener forbids; never itself |
| MixGraphs.UngroupedHearsEveryone | crates/mixer/src/graph.rs:646-664 | a participant that points at no group hears everyone else, but not itself, if and only if no mute forbids it |
| MixGraphs.MembershipIsExclusive | crates/mixer/src/graph.rs:357-388 | no participant is in two groups |
| MixGraphs.MixGraph.RemoveInputSlot | crates/mixer/src/graph.rs:143-166 | removal forgets source, position, membership, own routes, exactly the mutes that name the id, and the id in all other allow-lists, and keeps all groups isolated |
| MixGraphs.ForgettingOpensEmptyLists | crates/mixer/src/graph.rs:153-159 | whom the others may hear after a removal: as before, without the removed one; but a listener that was allowed nobody else may then hear everyone |
| MixGraphs.MixGraph.SetGroupMembers | crates/mixer/src/graph.rs:338-355 | the group has exactly the given members, they are gone from every other group, all groups stay isolated, and a participant in no group, dropped or not, keeps its allow-list |
| MixGraphs.MixGraph.MoveToGroup | crates/mixer/src/graph.rs:361-388 | the participant is in the target group only, all groups stay isolated, and participants in no group keep what they had |
| MixGraphs.MixGraph.RemoveFromGroup | crates/mixer/src/graph.rs:391-400 | the participant is in no group and may hear everyone, all groups stay isolated, and others in no group keep what they had |
| MixGraphs.MixGraph.RebuildGroupRoutes | crates/mixer/src/graph.rs:402-420 | the group's members get exactly each other as allow-list; anyone else keeps its own unless it points at no group, and then loses it |
| MixBus.SoftClipShape | crates/mixer/src/bus.rs:36-51 | on all 32-bit sums the limiter is monotone, never louder, the identity exactly up to its knee, and odd within the symmetric sample range exactly off the smallest sum, whose absolute value wraps |
| MixBus.SoftClipSlope | crates/mixer/src/bus.rs:43-50 | above the knee four units of the sum are one of the output, up to the largest sample, reached at 42595 |
| MixBus.SaturatesAtEnds | crates/mixer/src/bus.rs:17-25 | the accumulating sum is exact within 32 bits, and beyond them the bound on its own side |
| MixBus.LimitedSymmetrically | crates/mixer/src/bus.rs:27-51 | up to 65535 inputs mix to samples within the symmetric range, equal to the exact sum exactly up to the knee |
| MixBus.NeverSaturates | crates/mixer/src/bus.rs:14-25 | up to 65535 inputs never reach the 32-bit saturation |
| MixBus.MixIgnoresOrder | crates/mixer/src/bus.rs:14-33 | up to 65535 inputs mix to the same frame in any order |
| MixBus.Mix | crates/mixer/src/bus.rs:14-33 | the accumulating loops compute the limited saturating 32-bit sum of every sample, ill-sized inputs being silence |
| MixBus.IllSizedIsSilence | crates/mixer/src/bus.rs:17-20 | an input of the wrong size changes nothing |
| MixBus.QuietInputPasses | crates/mixer/src/bus.rs:14-33 | a single input within the knee comes out unchanged |
| MixBus.AddInput | crates/mixer/src/bus.rs:17-25 | one input is added to the accumulator sample by sample |
| MixBus.Limit | crates/mixer/src/bus.rs:27-30 | the accumulator is limited and written as little-endian samples |
| Pcm.EncodedSamples | crates/mixer/src/bus.rs:21-29 | decoding encoded samples gives them back |
| Pcm.LowByteFirst | crates/mixer/src/bus.rs:21-29 | the first byte of a sample is its low one |
| Pacer.CallAccounts | crates/mixer/src/pacer.rs:50-70 | one call: skipped slots, then at most 4 rendered ones, make up all slots passed; a call that skips re-anchors once; the next is due after now |
| Pacer.RendersWhenDue | crates/mixer/src/pacer.rs:45-70 | a call renders something if and only if the next slot, 20 ms after the one before, is due |
| Pacer.RenderedOrSkippedOnce | crates/mixer/src/pacer.rs:50-70 | over any times, even going backwards: rendered slots strictly increase and each slot passed is rendered or counted as skipped |
| Pacer.NextDueIsAhead | crates/mixer/src/pacer.rs:45-48 | the next slot is due after every time given so far |
| Pacer.OutboundPacer.Due | crates/mixer/src/pacer.rs:54-70 | the state and slots after a call |
| PacedListeners.FirstSlotTick | crates/mixer/src/pacer.rs:50-70 | the first slot rendered after skipped ones may hear the tick after theirs |
| PacedListeners.CountedWhen | crates/mixer/src/graph.rs:586-628 | when a listener that far behind counts just the ticks of the skipped slots, and when it merges instead |
| PacedListeners.SkippedSlotsAreCounted | crates/mixer/src/pacer.rs:7-9 | while others keep the clock going, a call's skipped slots are counted as skipped ticks if and only if at least 12 slots were due, and are all still held |
| PacedListeners.AloneNothingIsCounted | crates/mixer/src/pacer.rs:7-9 | with no other listener, no skipped slot is counted: the next render merges, or resyncs the clock and hears exactly one tick, a new one, the only one played |
| Resampler.Lerp | crates/speech/src/pcm.rs:222-225 | interpolation lies between its neighbours, so the narrowing cast never wraps |
| Resampler.OutputInterpolates | crates/speech/src/pcm.rs:193-201 | output frame k is less than one unit from the exact point of the line through its two source samples at k * rate / 48000, on the side of the left one |
| Resampler.CompleteInterpolates | crates/speech/src/pcm.rs:136-145 | the same of every frame of the whole output, the last sample held at the end |
| Resampler.LineStaysLine | crates/speech/src/pcm.rs:136-145 | an evenly rising or falling input whose step times the rate is a multiple of 48000 is resampled to an exactly linear output |
| Resampler.BothChannels | crates/speech/src/pcm.rs:227-231 | every sample is in both channels |
| Resampler.Complete | crates/speech/src/pcm.rs:143-144 | the whole output has input samples times 48000 over the rate, rounded up, frames |
| Resampler.DurationKept | crates/speech/src/pcm.rs:143-144 | output frames times rate exceed input samples times 48000 by less than one step |
| Resampler.NeighboursExist | crates/speech/src/pcm.rs:193-201 | every output frame lies between the two source samples around its exact position |
| Resampler.MonotoneStaysMonotone | crates/speech/src/pcm.rs:136-145 | non-decreasing input gives non-decreasing output |
| Resampler.DeterminedStay | crates/speech/src/pcm.rs:140-141 | more input never changes frames already put out |
| Resampler.MonoToStereo48k.Create | crates/speech/src/pcm.rs:158-170 | a converter is created if and only if the rate is within 8000..=48000, and starts with nothing fed |
| Resampler.MonoToStereo48k.EmittedIsStreamed | crates/speech/src/pcm.rs:140-142 | whatever has been pushed in whatever pieces, what has been put out is the closed form of the joined bytes |
| Resampler.MonoToStereo48k.Push | crates/speech/src/pcm.rs:173-205 | pushing appends to the bytes fed and to the bytes put out, and keeps them related |
| Resampler.MonoToStereo48k.TakeWhole | crates/speech/src/pcm.rs:174-181 | an odd trailing byte is carried, and no sample is lost at the cut |
| Resampler.MonoToStereo48k.Consume | crates/speech/src/pcm.rs:183-203 | one sample puts out exactly the frames of the interval it closes; 48 kHz is plain duplication |
| Resampler.MonoToStereo48k.EmitBetween | crates/speech/src/pcm.rs:194-199 | the phase loop puts out the closed form's frames of one interval |
| Resampler.MonoToStereo48k.Finish | crates/speech/src/pcm.rs:208-219 | flushing completes the closed form of everything fed and resets |
| Resampler.MonoToStereo48k.EmitHeld | crates/speech/src/pcm.rs:210-215 | the frames after the last sample repeat it, up to the closed form's length |
| Resampler.ConvertStream | crates/speech/src/pcm.rs:140-144 | pushing a stream in any pieces and finishing gives the closed form of the whole |
| EventBus.SpeechEventBus.EmitEvent | crates/speech/src/events.rs:535-549 | emitting extends the log at its end or before the chosen slot, and what is sent stays the log's longest hole-free prefix |
| EventBus.SpeechEventBus.SetBeforeSlot | crates/speech/src/events.rs:553-556 | choosing a slot remembers it and changes nothing in the log, the queue or what was sent |
| EventBus.SpeechEventBus.ReserveSlot | crates/speech/src/events.rs:567-573 | reserving appends a hole under a new slot number |
| EventBus.SpeechEventBus.FillSlot | crates/speech/src/events.rs:576-582 | filling replaces the slot's entry and sends everything that became hole-free |
| EventBus.SpeechEventBus.DeliverReady | crates/speech/src/events.rs:558-564 | delivery moves the hole-free front from the queue to the channel and changes no order |
| EventBus.SpeechEventBus.SentIsDelivered | crates/speech/src/events.rs:504-509 | what was sent is exactly the longest hole-free prefix of the log |
| EventBus.EventsKept | crates/speech/src/events.rs:535-582 | an operation keeps every event and adds the given one if and only if it is not a fill of a slot that is not open |
| EventBus.OpenMeansReservedOnce | crates/speech/src/events.rs:567-582 | every fill of a run finds its slot open if and only if the calls fill only numbers reserved before, each at most once |
| EventBus.SecondFillOverwrites | crates/speech/src/events.rs:576-582 | a run in which a second fill of a queued slot loses the first final |
| EventBus.UnreservedFillIsDropped | crates/speech/src/events.rs:576-582 | a fill of a slot never reserved changes nothing, the final is lost |
| EventBus.RunKeepsEvents | crates/speech/src/events.rs:535-582 | over any run that fills open slots, no event is lost or duplicated |
| EventBus.EventsKeptInRun | crates/speech/src/events.rs:566-582 | over a run of a new bus the events in the log are those given if and only if each fill is of a number reserved before and not filled since |
| EventBus.RunTracks | crates/speech/src/events.rs:535-582 | over any such run, no two log entries change order |
| EventBus.FinalComesFirst | crates/speech/src/events.rs:504-508 | an event behind an open slot is delivered only after that slot's final |
| EventBus.EmitLands | crates/speech/src/events.rs:535-549 | an emitted event lands at the end, or right before the undelivered slot it is to precede |
| EventBus.CallsLeave | crates/speech/src/events.rs:530-582 | over any run of a new bus, from the calls alone: the slot last chosen is remembered, slots are counted, and each reserved and unfilled one has its hole |
| EventBus.EmitStandsBefore | crates/speech/src/events.rs:535-549 | from the calls alone: after choosing a slot that is reserved and not filled, an emitted event stands directly before the entry of that slot |
| EventBus.EmitStandsLast | crates/speech/src/events.rs:535-556 | with no slot chosen, or none chosen last, it stands at the end |
| EventBus.EmittedComesBeforeFinal | crates/speech/src/events.rs:550-556 | and whatever is called afterwards, it is delivered before the final of that slot |
| EventBus.DeliveredInOrder | crates/speech/src/events.rs:558-564 | delivered events come in the order of the log |
| EventBus.BargeInComesFirst | crates/speech/src/events.rs:550-556 | an instance: the event emitted before a slot reserved earlier is delivered before its final |
| EventBus.RunKeepsSlotsUnique | crates/speech/src/events.rs:512-515 | over any run a reserved slot has one entry, and an ordinary entry always has its event |
| EventBus.ReservedSlotIsOpen | crates/speech/src/events.rs:567-573 | a reserved slot is a new number, open, and the one its fill will find |
| EventBus.DeliveredGrows | crates/speech/src/events.rs:558-564 | delivered events stay delivered in the same order |
| EventBus.AllDeliveredWhenAllFilled | crates/speech/src/events.rs:566-582 | for callers that fill reserved numbers once: the queue is empty if and only if all are filled, and then everything given was delivered |
| DeferredFinals.StepKeepsAligned | crates/speech/src/stt_deferred.rs:5-16 | every operation keeps requests = markers + pending, finals followed by markers, and the segment text right |
| DeferredFinals.RequestsMatchMarkers | crates/speech/src/stt_deferred.rs:5-16 | the same over any run since the last clear |
| DeferredFinals.FinalIsTheWholeUtterance | crates/speech/src/stt_deferred.rs:175-191 | a final is queued exactly when a finalize is closed with an utterance open, and is the join of all its segments |
| DeferredFinals.PartialShowsTheUtterance | crates/speech/src/stt_deferred.rs:9-10 | every partial shows all segments so far and the text just spoken |
| DeferredFinals.SpokenIsShown | crates/speech/src/stt_deferred.rs:57-81 | an interim or a segment that is not blank queues exactly one partial of everything spoken, a blank one nothing; only a segment is kept |
| DeferredFinals.FailureComesFirst | crates/speech/src/stt_deferred.rs:100-138 | a failure is queued before the final it closes, and once |
| DeferredFinals.ClosesWhen | crates/speech/src/stt_deferred.rs:90-138 | how many finalizes each operation closes: one for an answer or a failure, all for a loss, none otherwise |
| DeferredFinals.TrimStrips | crates/speech/src/stt_deferred.rs:57-74 | trimming takes all whitespace off both ends and nothing else |
| DeferredFinals.ClearStartsAnew | crates/speech/src/stt_deferred.rs:148-153 | after a clear a run is that of a new provider |
| DeferredFinals.ExpireClosesAllExpired | crates/speech/src/stt_deferred.rs:113-122 | no finalize older than the bound stays pending if and only if none waits behind a younger one |
| DeferredFinals.ExpiryClosesTheOld | crates/speech/src/stt_deferred.rs:113-122 | an expiry closes the longest prefix of pending finalizes that are at least as old as the bound |
| DeferredFinals.ExpireCanMissUnordered | crates/speech/src/stt_deferred.rs:113-122 | a run from the start in which request times out of order leave an old finalize pending |
| DeferredFinals.ExpireAfterOrderedRequests | crates/speech/src/stt_deferred.rs:113-122 | after any run with requests in time order, an expiry leaves nothing older than its bound |
| DeferredFinals.IdleLossIsQuiet | crates/speech/src/stt_deferred.rs:124-130 | a loss changes nothing if and only if nothing is pending or spoken |
| DeferredFinals.DiscardDropsOnlyTranscripts | crates/speech/src/stt_deferred.rs:140-146 | discarding keeps every marker and every failure, in order |
| DeferredFinals.DeferredFinals.InterimText | crates/speech/src/stt_deferred.rs:57-67 | an interim is queued as a partial of segments and interim, blank text as nothing |
| DeferredFinals.DeferredFinals.FinalSegment | crates/speech/src/stt_deferred.rs:71-81 | a segment joins the open utterance and is queued as a partial |
| DeferredFinals.DeferredFinals.AnswerOldest | crates/speech/src/stt_deferred.rs:90-97 | an answer closes the oldest pending finalize, or does nothing when none is pending |
| DeferredFinals.DeferredFinals.FailOldest | crates/speech/src/stt_deferred.rs:100-106 | a failure is queued first, then the oldest finalize is closed |
| DeferredFinals.DeferredFinals.ExpireOld | crates/speech/src/stt_deferred.rs:114-122 | answering one by one closes the longest expired prefix at once |
| DeferredFinals.DeferredFinals.ConnectionLost | crates/speech/src/stt_deferred.rs:127-138 | one failure, one final, one marker per pending finalize; quiet when idle |
| DeferredFinals.DeferredFinals.Discard | crates/speech/src/stt_deferred.rs:141-146 | the transcripts are dropped and counted |
| DeferredFinals.DeferredFinals.NextOut | crates/speech/src/stt_deferred.rs:155-161 | the oldest item is taken; an error exactly when it is a failure, with its message; nothing exactly when the queue is empty |
| DeferredFinals.DeferredFinals.NextSaid | crates/speech/src/stt_deferred.rs:164-173 | the oldest transcript or failure is taken, markers before it are dropped |
| DeferredFinals.TranscriptsAreTakenInOrder | crates/speech/src/stt_deferred.rs:164-173 | reading transcripts passes over exactly the markers in front and takes the item behind them |
| InboundPump.StepKeepsInv | crates/speech/src/inbound_pump.rs:115-187 | every step of either task keeps order, gauge, silence bound and drained end |
| InboundPump.PumpIsSafe | crates/speech/src/inbound_pump.rs:115-187 | in every interleaving: queued = processed, in process, in channel; the gauge is exact and never underflows; the recorded maximum is the peak |
| InboundPump.SilenceTailIsBounded | crates/speech/src/inbound_pump.rs:145-160 | at most 75 silence frames are queued in a row |
| InboundPump.TailIsComplete | crates/speech/src/inbound_pump.rs:149-158 | in any run a tail ends by itself only with 75 silence frames queued in a row |
| InboundPump.TailIsQueued | crates/speech/src/inbound_pump.rs:149-157 | a reader that keeps running queues the whole tail |
| InboundPump.StreamEndStartsTail | crates/speech/src/inbound_pump.rs:131-148 | a stream end starts a tail if and only if no other one came since the last frame |
| InboundPump.AwaitingSinceStreamEnd | crates/speech/src/inbound_pump.rs:131-147 | over any run, the pump waits for the next burst exactly while the last read that gave a frame or a stream end was a stream end |
| InboundPump.ReaderEndsWhenStopped | crates/speech/src/inbound_pump.rs:132-168 | the reader ends exactly when it finds the pump stopped between two reads |
| InboundPump.StopCutsTail | crates/speech/src/inbound_pump.rs:149-159 | a stop cuts a tail short |
| InboundPump.NothingLeftBehind | crates/speech/src/inbound_pump.rs:92-93 | when the processor has ended, every frame read has been processed in order and the gauge is zero |
| InboundPump.ProcessorDrains | crates/speech/src/inbound_pump.rs:172-187 | once the reader has ended, the processor is never stuck and ends after processing everything queued |
| DependencyClosure.LocalDependencyClosure | scripts/ci/native_build_contract.py:468-509 | success if and only if root and all reachable ids are known; then every reachable source-less package once, nothing else, with manifest and crate root, in name order by code points, equal names in visiting order; otherwise the error names what is missing |
| DependencyClosure.CrateReports | scripts/ci/native_build_contract.py:492-505 | a crate reports the name and version of its package, its manifest and that one's directory as crate root, and the features of its node, sorted |
| DependencyClosure.FirstNamedIsRoot | scripts/ci/native_build_contract.py:474-482 | of several packages with the root's name the first one is the root |
| DependencyClosure.LastPackageIsTaken | scripts/ci/native_build_contract.py:472-472 | of several packages with one id the last one is taken |
| DependencyClosure.LastNodeIsTaken | scripts/ci/native_build_contract.py:473-473 | of several nodes with one id the last one is taken |
| DependencyClosure.LexFirstDifference | scripts/ci/native_build_contract.py:508-508 | names compare by their first difference, a prefix comes first |
| DependencyClosure.Walk | scripts/ci/native_build_contract.py:484-509 | the worklist ends on every graph, cycles included, with exactly that result |
| DependencyClosure.WalkedEverything | scripts/ci/native_build_contract.py:484-507 | when the worklist is empty, everything reachable has been visited |
| DependencyClosure.VisitKeepsOrder | scripts/ci/native_build_contract.py:484-507 | visiting the front of the worklist continues the breadth-first order of first visits |
| DependencyClosure.SortByIsStable | scripts/ci/native_build_contract.py:508-508 | sorting keeps the order of equal names |
| DependencyClosure.SortBySorts | scripts/ci/native_build_contract.py:508-508 | sorting by name gives a sorted permutation |
| IceUrls.ParseIceUrl | crates/core/src/ice_resolve.rs:61-104 | an accepted URL has a host and a port within 16 bits |
| IceUrls.AcceptedUrlShape | crates/core/src/ice_resolve.rs:61-104 | an accepted URL consists of exactly the parts the parser reports |
| IceUrls.ShapedUrlIsAccepted | crates/core/src/ice_resolve.rs:61-104 | and every URL of that shape is accepted, with the scheme in any case and exactly these parts |
| IceUrls.LookedUpWhen | crates/core/src/ice_resolve.rs:158-160 | hosts that are addresses, localhost, and hosts of the TLS schemes are never looked up, all other hosts are |
| IceUrls.SharedKey | crates/core/src/ice_resolve.rs:162-164 | two URLs share a lookup if and only if they name one host and one port, 3478 if none is named |
| IceUrls.PickPrefersV4 | crates/core/src/ice_resolve.rs:166-172 | the first IPv4 address of an answer is taken, or the first address if it has none |
| IceUrls.FoundInTime | crates/core/src/ice_resolve.rs:211-218 | a lookup gives an address if and only if its answer comes within the timeout and has one |
| IceUrls.ServesFor | crates/core/src/ice_resolve.rs:127-145 | an entry with an address is live for less than 60 s, one without for less than 30 s |
| IceUrls.RewriteRoundTrip | crates/core/src/ice_resolve.rs:106-120 | parsing a rewritten URL gives the original scheme, port and query with the address as host, for both address families |
| IceUrls.AcceptedUrlRoundTrip | crates/core/src/ice_resolve.rs:61-120 | the same for every URL the parser accepts |
| IceUrls.ParsePrintedPort | crates/core/src/ice_resolve.rs:79-93 | a printed port is read back, also with a plus sign in front |
| IceUrls.SecondPassChangesNothing | crates/core/src/ice_resolve.rs:233-262 | the pass changes nothing of its own output and finds no host left to look up |
| IceUrls.ResolveWith | crates/core/src/ice_resolve.rs:183-263 | wanted keys without a live cache entry are looked up once each within the timeout, and the servers are rewritten with what the cache, expiry included, answers by then |
| IceUrls.RewrittenWhen | crates/core/src/ice_resolve.rs:183-262 | a URL is rewritten if and only if its key's address was cached and is live to the end, or was found in time |
| IceUrls.FreshAnswersAreUsed | crates/core/src/ice_resolve.rs:208-248 | an address found in the pass is used whenever the pass takes less than a minute |
| IceUrls.CachedAddressCanExpire | crates/core/src/ice_resolve.rs:125-145 | a cached address that expires within the pass is neither used nor looked up again |
| IceUrls.ResolveCache.Get | crates/core/src/ice_resolve.rs:126-145 | the live outcome, 60 s for an address and 30 s for a failure; what is forgotten would never be given again |
| IceUrls.ResolveCache.Put | crates/core/src/ice_resolve.rs:147-150 | the outcome replaces the key's entry |
| IceUrls.CollectPending | crates/core/src/ice_resolve.rs:193-206 | the loop collects exactly the wanted keys without a live entry |
| IceUrls.RewriteAll | crates/core/src/ice_resolve.rs:237-256 | each URL is kept, rewritten or dropped in place |

## Left out

- Sample arithmetic of the cross-fade, the concealment fade, panning and RMS levels is floating point; merging and fading are uninterpreted terms, and the placement of a source is a parameter of the render.
- A merge that returns one of its two frames because the other is near silence counts as a merge of both, as the code counts it.
- Times are whole microseconds. A render less than a microsecond early, which the code rounds to on time, is not distinguished.
- The jitter estimate is exact real arithmetic instead of 64-bit floating point.
- Counters and tick numbers are unbounded; the 32-bit slimming counter would wrap after more than two years over the margin.
- A queue inside the mix graph is a value, as its owner holds it exclusively; the queue object is modelled separately against the same transitions.
- The limiter at the smallest 32-bit sum is modelled with the wrap-around of optimised builds; a build with overflow checks stops there, which takes more than 65535 inputs.
- Setters of mutes, poses, placements and explicit routes are one-line updates; explicit route edits would break the group property, which is stated for the group operations and removals.
- The broadcast channel's capacity and lagging receivers, locks, logging, warning rate limits and telemetry.
- InboundPump: the once-per-episode warning flag, aborting either task, and a send that fails because the processor was aborted.
- IceUrls: what a resolver answers and how long it takes are parameters; each of the two loops of a pass reads the clock once, and concurrent passes over one cache are not modelled.
- IceUrls: formatting and recognising address literals is the standard library's; an address is any text of address characters that the library recognises.
- DependencyClosure: how the path library writes a path and finds its directory is a parameter; running `cargo metadata`.
- Resampler: the callers that decode a vendor's audio events and time the converted pieces.
- Frame timestamps, decode-error counts, the single-slot frame buffer, the clip player, codecs, vendors and bindings.
