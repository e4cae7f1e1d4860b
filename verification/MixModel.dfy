/**
 The media side of the mix graph as values: sources with their bounded histories, the shared 20 ms
 media clock, and the position of every listener in the histories.
 */
module MixModel {
  import opened Wrappers
  import opened Frames
  import opened Elastic
  import opened Sequences

  datatype Id = Id(name: string)

  // An advance over more ticks than these gives them up, all but one.
  const MAX_CATCHUP_TICKS := 8
  // How many of its latest outputs a source remembers.
  const HISTORY_TICKS := 2 * MAX_CATCHUP_TICKS + 2

  /** One mix source: its queue and the frames of the latest ticks, newest last. */
  datatype Slot = Slot(queue: Queue, history: seq<Frame>, catchupCompressed: nat, skipped: nat)

  function NewSlot(): Slot {
    Slot(New(), [], 0, 0)
  }

  /** The history entry `lag` places before the newest one; outside the history a source is silent. */
  function FrameAtLag(history: seq<Frame>, lag: nat): Frame {
    if lag < |history| then history[|history| - 1 - lag] else Silent
  }

  /** Appends to a history of at most `HISTORY_TICKS` frames. */
  function Remember(history: seq<Frame>, f: Frame): seq<Frame> {
    (if |history| == HISTORY_TICKS then history[1..] else history) + [f]
  }

  function TickSlot(s: Slot): Slot {
    var (queue, frame) := Pop(s.queue);
    s.(queue := queue, history := Remember(s.history, frame))
  }

  function TickSlotTimes(s: Slot, n: nat): Slot {
    Iterate(TickSlot, s, n)
  }

  function TickAll(inputs: map<Id, Slot>, n: nat): map<Id, Slot> {
    map id | id in inputs :: TickSlotTimes(inputs[id], n)
  }

  // ----- the media clock

  datatype Media = Media(clock: Option<int>, tickCount: nat, inputs: map<Id, Slot>)

  function Elapsed(clock: int, now: int): nat {
    Max(0, now - clock) / TICK_US
  }

  /** How many ticks an advance processes, and where it leaves the clock. */
  function TicksToRun(clock: int, now: int): nat {
    var ticks := Elapsed(clock, now);
    if ticks > MAX_CATCHUP_TICKS then 1 else ticks
  }

  function ClockAfter(clock: int, now: int): int {
    var ticks := Elapsed(clock, now);
    if ticks > MAX_CATCHUP_TICKS then now else clock + ticks * TICK_US
  }

  function Advance(m: Media, now: int): Media {
    if m.clock.None? then m.(clock := Some(now))
    else
      AdvanceBy(m, TicksToRun(m.clock.value, now), ClockAfter(m.clock.value, now))
  }

  function AdvanceBy(m: Media, run: nat, clock: int): Media {
    Media(Some(clock), m.tickCount + run, TickAll(m.inputs, run))
  }

  // ----- listeners

  /** What a render plays: one entry of the histories, two merged, or one after a jump; by their lags. */
  datatype ListenerStep =
    | Single(lag: nat)
    | Merge(olderLag: nat, newerLag: nat)
    | Jump(lag: nat, skipped: nat)

  /** Whole ticks by which a render at `now` is early. */
  function Behind(clock: Option<int>, now: int): nat {
    if clock.Some? && now < clock.value then (clock.value - now + TICK_US - 1) / TICK_US else 0
  }

  /** The newest tick a render at `now` may hear. */
  function Newest(clock: Option<int>, tickCount: nat, now: int): nat {
    Max(0, tickCount - Behind(clock, now))
  }

  /** The oldest tick the histories still hold. */
  function OldestHeld(tickCount: nat): nat {
    Max(0, tickCount - (HISTORY_TICKS - 1))
  }

  /**
   The step of a listener whose position is `cursor`, and its new position.  The type of the lags
   says that none of the subtractions below goes under zero.
   */
  function NextStep(newest: nat, tickCount: nat, cursor: nat): (r: (ListenerStep, nat))
    requires newest <= tickCount && cursor <= tickCount
    ensures cursor <= r.1 <= tickCount
  {
    var trailing := Max(0, newest - cursor);
    var oldestHeld := OldestHeld(tickCount);
    if trailing > 0 && cursor + 1 < oldestHeld then
      if newest < oldestHeld then (Jump(tickCount - newest, trailing), newest)
      else if newest - oldestHeld >= MAX_CATCHUP_TICKS then (Jump(tickCount - newest, trailing - 1), newest)
      else (Jump(tickCount - oldestHeld, oldestHeld - cursor - 1), oldestHeld)
    else if trailing <= 1 then
      (Single(tickCount - (cursor + trailing)), cursor + trailing)
    else if trailing > MAX_CATCHUP_TICKS then
      (Jump(tickCount - newest, trailing - 1), newest)
    else
      (Merge(tickCount - (cursor + 1), tickCount - (cursor + 2)), cursor + 2)
  }

  /** What a render hears of one source. */
  function Heard(step: ListenerStep, history: seq<Frame>): Frame {
    match step
    case Single(lag) => FrameAtLag(history, lag)
    case Merge(older, newer) => Merged(FrameAtLag(history, older), FrameAtLag(history, newer))
    case Jump(lag, _) => FrameAtLag(history, lag)
  }

  function MergedTicks(step: ListenerStep): nat {
    if step.Merge? then 1 else 0
  }

  function SkippedTicks(step: ListenerStep): nat {
    if step.Jump? then step.skipped else 0
  }

  // ----- the whole media state and its events

  datatype Graph = Graph(media: Media, cursors: map<Id, nat>)

  ghost predicate WellFormed(g: Graph) {
    forall id | id in g.cursors :: g.cursors[id] <= g.media.tickCount
  }

  const EMPTY := Graph(Media(None, 0, map[]), map[])

  /** `audible` of a render: the sources that reach the listener (none while mixing is disabled). */
  datatype Event =
    | AddInput(id: Id)
    | RemoveInput(id: Id)
    | PushFrame(id: Id, pcm: seq<Byte>, now: int)
    | Render(id: Id, now: int, audible: set<Id>)

  function WithInput(inputs: map<Id, Slot>, id: Id): map<Id, Slot> {
    if id in inputs then inputs else inputs[id := NewSlot()]
  }

  function Credit(inputs: map<Id, Slot>, audible: set<Id>, step: ListenerStep): map<Id, Slot> {
    map id | id in inputs ::
      if id in audible
      then inputs[id].(catchupCompressed := inputs[id].catchupCompressed + MergedTicks(step),
                       skipped := inputs[id].skipped + SkippedTicks(step))
      else inputs[id]
  }

  /** Position of a listener as a render at `now` finds it; a new one starts at the newest tick. */
  function CursorAt(g: Graph, id: Id, now: int): nat {
    if id in g.cursors then g.cursors[id] else Newest(g.media.clock, g.media.tickCount, now)
  }

  /** The step of a render on an already advanced graph. */
  function StepAt(g: Graph, id: Id, now: int): (r: (ListenerStep, nat))
    requires WellFormed(g)
    ensures r.1 <= g.media.tickCount
  {
    NextStep(Newest(g.media.clock, g.media.tickCount, now), g.media.tickCount, CursorAt(g, id, now))
  }

  function Advanced(g: Graph, now: int): (g': Graph)
    ensures WellFormed(g) ==> WellFormed(g')
  {
    g.(media := Advance(g.media, now))
  }

  function Apply(g: Graph, e: Event): (g': Graph)
    requires WellFormed(g)
    ensures WellFormed(g')
  {
    match e
    case AddInput(id) => g.(media := g.media.(inputs := WithInput(g.media.inputs, id)))
    case RemoveInput(id) => Graph(g.media.(inputs := g.media.inputs - {id}), g.cursors - {id})
    case PushFrame(id, pcm, now) =>
      var inputs := WithInput(g.media.inputs, id);
      g.(media := g.media.(
        clock := if g.media.clock.None? then Some(now) else g.media.clock,
        inputs := inputs[id := inputs[id].(queue := Push(inputs[id].queue, pcm, now))]))
    case Render(id, now, audible) =>
      var g := Advanced(g, now);
      var (step, cursor) := StepAt(g, id, now);
      Graph(g.media.(inputs := Credit(g.media.inputs, audible, step)), g.cursors[id := cursor])
  }

  function Run(g: Graph, events: seq<Event>): (g': Graph)
    requires WellFormed(g)
    ensures WellFormed(g')
    decreases events
  {
    if events == [] then g else Run(Apply(g, events[0]), events[1..])
  }
}
