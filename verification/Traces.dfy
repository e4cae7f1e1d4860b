/**
 The bounded histories against the unbounded record of everything each source has played: the mix
 graph with its `HISTORY_TICKS`-frame histories refines one that forgets nothing.
 */
module Traces {
  import opened Wrappers
  import opened Frames
  import opened Elastic
  import ElasticRuns
  import opened MixModel
  import opened Listeners
  import opened Sequences

  /** A source that remembers every frame it has played; `birth` is the tick count at registration. */
  datatype Source = Source(queue: Queue, trace: seq<Frame>, birth: nat)

  datatype Record = Record(clock: Option<int>, tickCount: nat, sources: map<Id, Source>)

  function TickSourceTimes(s: Source, n: nat): (s': Source)
    ensures s'.birth == s.birth && s.trace <= s'.trace && |s'.trace| == |s.trace| + n
  {
    if n == 0 then s
    else
      var s' := TickSourceTimes(s, n - 1);
      var (queue, frame) := Pop(s'.queue);
      s'.(queue := queue, trace := s'.trace + [frame])
  }

  function AdvanceRecord(r: Record, now: int): Record {
    if r.clock.None? then r.(clock := Some(now))
    else
      var run := TicksToRun(r.clock.value, now);
      Record(Some(ClockAfter(r.clock.value, now)), r.tickCount + run,
             map id | id in r.sources :: TickSourceTimes(r.sources[id], run))
  }

  function WithSource(r: Record, id: Id): map<Id, Source> {
    if id in r.sources then r.sources else r.sources[id := Source(New(), [], r.tickCount)]
  }

  function ApplyRecord(r: Record, e: Event): Record {
    match e
    case AddInput(id) => r.(sources := WithSource(r, id))
    case RemoveInput(id) => r.(sources := r.sources - {id})
    case PushFrame(id, pcm, now) =>
      var sources := WithSource(r, id);
      r.(clock := if r.clock.None? then Some(now) else r.clock,
         sources := sources[id := sources[id].(queue := Push(sources[id].queue, pcm, now))])
    case Render(_, now, _) => AdvanceRecord(r, now)
  }

  function RunRecord(r: Record, events: seq<Event>): Record
    decreases events
  {
    if events == [] then r else RunRecord(ApplyRecord(r, events[0]), events[1..])
  }

  const EMPTY_RECORD := Record(None, 0, map[])

  // ----- refinement

  function Latest(trace: seq<Frame>): seq<Frame> {
    if |trace| <= HISTORY_TICKS then trace else trace[|trace| - HISTORY_TICKS..]
  }

  ghost predicate SlotAgrees(s: Slot, src: Source, tickCount: nat) {
    && s.queue == src.queue
    && s.history == Latest(src.trace)
    && src.birth + |src.trace| == tickCount
  }

  ghost predicate Agrees(g: Graph, r: Record) {
    && g.media.clock == r.clock && g.media.tickCount == r.tickCount
    && g.media.inputs.Keys == r.sources.Keys
    && forall id | id in r.sources :: SlotAgrees(g.media.inputs[id], r.sources[id], r.tickCount)
  }

  lemma RememberIsLatest(trace: seq<Frame>, f: Frame)
    ensures Remember(Latest(trace), f) == Latest(trace + [f])
  {
  }

  lemma {:induction false} TicksAgree(s: Slot, src: Source, tickCount: nat, n: nat)
    requires SlotAgrees(s, src, tickCount)
    ensures SlotAgrees(TickSlotTimes(s, n), TickSourceTimes(src, n), tickCount + n)
  {
    if n > 0 {
      TicksAgree(s, src, tickCount, n - 1);
      var src' := TickSourceTimes(src, n - 1);
      RememberIsLatest(src'.trace, Pop(src'.queue).1);
    }
  }

  lemma AdvanceAgrees(g: Graph, r: Record, now: int)
    requires Agrees(g, r)
    ensures Agrees(Advanced(g, now), AdvanceRecord(r, now))
  {
    if r.clock.Some? {
      var run := TicksToRun(r.clock.value, now);
      forall id | id in r.sources
        ensures SlotAgrees(TickSlotTimes(g.media.inputs[id], run), TickSourceTimes(r.sources[id], run),
                           r.tickCount + run)
      {
        TicksAgree(g.media.inputs[id], r.sources[id], r.tickCount, run);
      }
    }
  }

  /** After more than 8 ticks without an advance, the next one plays exactly one frame of every source. */
  lemma ResyncPlaysOneFrame(r: Record, now: int, id: Id)
    requires r.clock.Some? && now - r.clock.value >= 9 * TICK_US && id in r.sources
    ensures var src, r' := r.sources[id], AdvanceRecord(r, now);
            && r'.tickCount == r.tickCount + 1 && r'.clock == Some(now) && id in r'.sources
            && r'.sources[id].trace == src.trace + [Pop(src.queue).1]
            && r'.sources[id].queue == Pop(src.queue).0
  {
    var src := r.sources[id];
    assert TickSourceTimes(src, 0) == src;
    assert TicksToRun(r.clock.value, now) == 1;
  }

  /** In general it plays as many of every source as it processes ticks. */
  lemma AdvancePlaysEveryTick(r: Record, now: int, id: Id)
    requires r.clock.Some? && id in r.sources
    ensures var src, r' := r.sources[id], AdvanceRecord(r, now);
            var elapsed := Max(0, now - r.clock.value);
            && id in r'.sources && src.trace <= r'.sources[id].trace
            && |r'.sources[id].trace| - |src.trace| == r'.tickCount - r.tickCount
            && r'.tickCount - r.tickCount == if elapsed >= 9 * TICK_US then 1 else elapsed / TICK_US
  {
  }

  lemma ApplyAgrees(g: Graph, r: Record, e: Event)
    requires WellFormed(g) && Agrees(g, r)
    ensures Agrees(Apply(g, e), ApplyRecord(r, e))
  {
    match e
    case Render(id, now, audible) =>
      AdvanceAgrees(g, r, now);
      CreditAgrees(Advanced(g, now), AdvanceRecord(r, now), StepAt(Advanced(g, now), id, now), id, audible);
    case PushFrame(id, pcm, now) => PushAgrees(g, r, id, pcm, now);
    case _ =>
  }

  /** Moving a listener and crediting sources leaves queues and histories as they are. */
  lemma CreditAgrees(g: Graph, r: Record, step: (ListenerStep, nat), id: Id, audible: set<Id>)
    requires Agrees(g, r)
    ensures Agrees(Graph(g.media.(inputs := Credit(g.media.inputs, audible, step.0)), g.cursors[id := step.1]), r)
  {
    var inputs := Credit(g.media.inputs, audible, step.0);
    forall x | x in r.sources ensures SlotAgrees(inputs[x], r.sources[x], r.tickCount) {
      assert SlotAgrees(g.media.inputs[x], r.sources[x], r.tickCount);
    }
  }

  lemma PushAgrees(g: Graph, r: Record, id: Id, pcm: seq<Byte>, now: int)
    requires WellFormed(g) && Agrees(g, r)
    ensures Agrees(Apply(g, PushFrame(id, pcm, now)), ApplyRecord(r, PushFrame(id, pcm, now)))
  {
    var e := PushFrame(id, pcm, now);
    forall x | x in ApplyRecord(r, e).sources
      ensures SlotAgrees(Apply(g, e).media.inputs[x], ApplyRecord(r, e).sources[x], r.tickCount)
    {
      if x in r.sources {
        assert SlotAgrees(g.media.inputs[x], r.sources[x], r.tickCount);
      }
    }
  }

  lemma EmptyAgrees()
    ensures WellFormed(EMPTY) && Agrees(EMPTY, EMPTY_RECORD)
  {
  }

  /** Refinement: after any events the graph's histories are the latest part of the full record. */
  lemma {:induction false} RunAgrees(g: Graph, r: Record, events: seq<Event>)
    requires WellFormed(g) && Agrees(g, r)
    ensures Agrees(Run(g, events), RunRecord(r, events))
    decreases events
  {
    if events != [] {
      ApplyAgrees(g, r, events[0]);
      RunAgrees(Apply(g, events[0]), ApplyRecord(r, events[0]), events[1..]);
    }
  }

  /** The frame a source played at a tick; silence before it was registered. */
  function TraceAt(src: Source, tick: int): Frame {
    if src.birth < tick <= src.birth + |src.trace| then src.trace[tick - src.birth - 1] else Silent
  }

  /** Within the window, the bounded history answers as the full record would. */
  lemma HistoryServesRecord(g: Graph, r: Record, id: Id, tick: nat)
    requires Agrees(g, r) && id in r.sources
    requires tick <= r.tickCount < tick + HISTORY_TICKS
    ensures FrameAtLag(g.media.inputs[id].history, r.tickCount - tick) == TraceAt(r.sources[id], tick)
  {
  }

  // ----- what a listener hears of a source

  function FramesAt(src: Source, ticks: seq<int>): seq<Frame> {
    seq(|ticks|, k requires 0 <= k < |ticks| => TraceAt(src, ticks[k]))
  }

  /** A render of listener `id` that `source` reaches: mixing is on and neither routes nor mutes forbid it. */
  predicate Reaches(e: Event, id: Id, source: Id) {
    e.Render? && e.id == id && source in e.audible
  }

  /**
   The source frames one event delivers from `source` to listener `id`: what the step plays of it, if it
   reaches the listener at all.  A repeat delivers nothing new.
   */
  function DeliveredAt(g: Graph, e: Event, id: Id, source: Id): seq<seq<Byte>>
    requires WellFormed(g) && id in g.cursors && source in g.media.inputs
  {
    var s := StepOf(g, e, id);
    if !Reaches(e, id, source) || s.value.1 == g.cursors[id] then []
    else Sources(Heard(s.value.0, Advanced(g, e.now).media.inputs[source].history))
  }

  lemma SourcesAtOne(src: Source, tick: int)
    ensures SourcesOf(FramesAt(src, [tick])) == Sources(TraceAt(src, tick))
  {
    assert FramesAt(src, [tick]) == [TraceAt(src, tick)];
    SourcesOfOne(TraceAt(src, tick));
  }

  lemma SourcesAtTwo(src: Source, first: int, second: int)
    ensures SourcesOf(FramesAt(src, [first, second])) == Sources(TraceAt(src, first)) + Sources(TraceAt(src, second))
  {
    assert FramesAt(src, [first, second]) == [TraceAt(src, first)] + [TraceAt(src, second)];
    SourcesOfOne(TraceAt(src, first));
    SourcesOfOne(TraceAt(src, second));
    SourcesOfConcat([TraceAt(src, first)], [TraceAt(src, second)]);
  }

  /** What a step that moves the cursor plays of a source carries just the newly heard ticks. */
  lemma StepDelivers(newest: nat, tickCount: nat, cursor: nat, history: seq<Frame>, src: Source)
    requires newest <= tickCount && cursor <= tickCount && |history| <= HISTORY_TICKS
    requires forall lag: nat | lag < HISTORY_TICKS && lag <= tickCount ::
               FrameAtLag(history, lag) == TraceAt(src, tickCount - lag)
    ensures var (step, cursor') := NextStep(newest, tickCount, cursor);
            SourcesOf(FramesAt(src, NewlyHeard(step, tickCount, cursor)))
            == if cursor' == cursor then [] else Sources(Heard(step, history))
  {
    StepAccounts(newest, tickCount, cursor);
    var (step, _) := NextStep(newest, tickCount, cursor);
    var heard := NewlyHeard(step, tickCount, cursor);
    if |heard| == 1 {
      assert heard == [heard[0]] && heard[0] in heard;
      SourcesAtOne(src, heard[0]);
    } else if |heard| == 2 {
      assert heard == [heard[0], heard[1]] && heard[0] in heard && heard[1] in heard;
      SourcesAtTwo(src, heard[0], heard[1]);
    }
  }

  /** The same for a render of listener `id` on an advanced graph and its full record. */
  lemma RenderDelivers(g: Graph, r: Record, id: Id, now: int, source: Id)
    requires WellFormed(g) && id in g.cursors && Agrees(g, r) && source in r.sources
    ensures var (step, cursor') := StepAt(g, id, now);
            SourcesOf(FramesAt(r.sources[source], NewlyHeard(step, g.media.tickCount, g.cursors[id])))
            == if cursor' == g.cursors[id] then [] else Sources(Heard(step, g.media.inputs[source].history))
  {
    var m := g.media;
    forall lag: nat | lag < HISTORY_TICKS && lag <= r.tickCount
      ensures FrameAtLag(m.inputs[source].history, lag) == TraceAt(r.sources[source], r.tickCount - lag)
    {
      HistoryServesRecord(g, r, source, r.tickCount - lag);
    }
    StepDelivers(Newest(m.clock, m.tickCount, now), m.tickCount, g.cursors[id], m.inputs[source].history,
                 r.sources[source]);
  }

  /** The ticks at which an event lets listener `id` hear `source`. */
  function HeardFromAt(g: Graph, e: Event, id: Id, source: Id): seq<int>
    requires WellFormed(g) && id in g.cursors
  {
    if Reaches(e, id, source) then HeardAt(g, e, id) else []
  }

  /** The ticks at which listener `id` heard `source` in a run. */
  function HeardFromIn(g: Graph, events: seq<Event>, id: Id, source: Id): seq<int>
    requires WellFormed(g) && id in g.cursors && Stays(events, id)
    decreases events
  {
    if events == [] then []
    else
      assert events[0] in events;
      HeardFromAt(g, events[0], id, source) + HeardFromIn(Apply(g, events[0]), events[1..], id, source)
  }

  /** They are some of the ticks the listener heard, in the same order. */
  lemma {:induction false} HeardFromSome(g: Graph, events: seq<Event>, id: Id, source: Id)
    requires WellFormed(g) && id in g.cursors && Stays(events, id)
    ensures id in Run(g, events).cursors
    ensures IncreasingIn(HeardFromIn(g, events, id, source), g.cursors[id], Run(g, events).cursors[id])
    decreases events
  {
    if events != [] {
      assert events[0] in events;
      EventAccounts(g, events[0], id);
      HeardOrCounted(Apply(g, events[0]), events[1..], id);
      HeardFromSome(Apply(g, events[0]), events[1..], id, source);
    }
  }

  /** `source` reaches listener `id` at each of its renders. */
  predicate AlwaysReaches(events: seq<Event>, id: Id, source: Id) {
    forall i | 0 <= i < |events| && events[i].Render? && events[i].id == id :: source in events[i].audible
  }

  /** A source that always reaches the listener is heard at all ticks the listener hears. */
  lemma {:induction false} AlwaysHeard(g: Graph, events: seq<Event>, id: Id, source: Id)
    requires WellFormed(g) && id in g.cursors && Stays(events, id) && AlwaysReaches(events, id, source)
    ensures HeardFromIn(g, events, id, source) == HeardIn(g, events, id)
    decreases events
  {
    if events != [] {
      assert events[0] in events;
      AlwaysHeard(Apply(g, events[0]), events[1..], id, source);
    }
  }

  lemma EventDelivers(g: Graph, r: Record, e: Event, id: Id, source: Id)
    requires WellFormed(g) && id in g.cursors && Agrees(g, r) && source in r.sources && e != RemoveInput(source)
    ensures source in ApplyRecord(r, e).sources
    ensures DeliveredAt(g, e, id, source)
         == SourcesOf(FramesAt(ApplyRecord(r, e).sources[source], HeardFromAt(g, e, id, source)))
  {
    if Reaches(e, id, source) {
      AdvanceAgrees(g, r, e.now);
      RenderDelivers(Advanced(g, e.now), AdvanceRecord(r, e.now), id, e.now, source);
    } else {
      assert FramesAt(ApplyRecord(r, e).sources[source], []) == [];
    }
  }

  function DeliveredIn(g: Graph, events: seq<Event>, id: Id, source: Id): seq<seq<Byte>>
    requires WellFormed(g) && id in g.cursors && source in g.media.inputs
    requires Stays(events, id) && Stays(events, source)
    decreases events
  {
    if events == [] then []
    else
      assert events[0] in events;
      DeliveredAt(g, events[0], id, source) + DeliveredIn(Apply(g, events[0]), events[1..], id, source)
  }

  /** A source's record only grows. */
  lemma {:induction false} RecordGrows(r: Record, events: seq<Event>, source: Id)
    requires source in r.sources && Stays(events, source)
    ensures source in RunRecord(r, events).sources
    ensures var s, s' := r.sources[source], RunRecord(r, events).sources[source];
            s.birth == s'.birth && s.trace <= s'.trace
    decreases events
  {
    if events != [] {
      assert events[0] in events;
      RecordGrows(ApplyRecord(r, events[0]), events[1..], source);
    }
  }

  /** A tick heard now has been played: later ticks do not change what the record says of it. */
  lemma HeardTicksExist(g: Graph, r': Record, e: Event, id: Id, source: Id)
    requires WellFormed(g) && id in g.cursors && e != RemoveInput(id)
    requires Agrees(Apply(g, e), r') && source in r'.sources
    ensures forall t <- HeardAt(g, e, id) :: t <= r'.sources[source].birth + |r'.sources[source].trace|
  {
    EventAccounts(g, e, id);
  }

  lemma FramesJoin(src: Source, last: Source, now: seq<int>, later: seq<int>)
    requires src.birth == last.birth && src.trace <= last.trace
    requires forall t <- now :: t <= src.birth + |src.trace|
    ensures SourcesOf(FramesAt(last, now + later)) == SourcesOf(FramesAt(src, now)) + SourcesOf(FramesAt(last, later))
  {
    assert FramesAt(last, now) == FramesAt(src, now) by {
      forall k | 0 <= k < |now| ensures TraceAt(last, now[k]) == TraceAt(src, now[k]) {
        assert now[k] in now;
      }
    }
    assert FramesAt(last, now + later) == FramesAt(last, now) + FramesAt(last, later);
    SourcesOfConcat(FramesAt(last, now), FramesAt(last, later));
  }

  /**
   Over any run, what a listener hears of a source is what that source played at the ticks the
   listener heard while the source reached it, in tick order, each once, read off the full record at
   the end of the run.
   */
  lemma {:induction false} DeliveredIsRecorded(g: Graph, r: Record, events: seq<Event>, id: Id, source: Id)
    requires WellFormed(g) && id in g.cursors && Agrees(g, r) && source in r.sources
    requires Stays(events, id) && Stays(events, source)
    ensures source in RunRecord(r, events).sources
    ensures DeliveredIn(g, events, id, source)
         == SourcesOf(FramesAt(RunRecord(r, events).sources[source], HeardFromIn(g, events, id, source)))
    decreases events
  {
    if events != [] {
      var e, rest := events[0], events[1..];
      assert e in events;
      var g', r' := Apply(g, e), ApplyRecord(r, e);
      EventDelivers(g, r, e, id, source);
      ApplyAgrees(g, r, e);
      EventAccounts(g, e, id);
      DeliveredIsRecorded(g', r', rest, id, source);
      RecordGrows(r', rest, source);
      HeardTicksExist(g, r', e, id, source);
      FramesJoin(r'.sources[source], RunRecord(r', rest).sources[source],
                 HeardFromAt(g, e, id, source), HeardFromIn(g', rest, id, source));
    }
  }

  // ----- from arrival to listener

  /** The frames a run pushes to `source`, as far as the queue accepts them. */
  function PushedTo(events: seq<Event>, source: Id): seq<seq<Byte>>
    decreases events
  {
    if events == [] then []
    else if events[0].PushFrame? && events[0].id == source && IsValid(events[0].pcm)
    then [events[0].pcm] + PushedTo(events[1..], source)
    else PushedTo(events[1..], source)
  }

  /** Everything a source has taken in: played, then queued. */
  function TakenIn(src: Source): seq<seq<Byte>> {
    SourcesOf(src.trace) + SourcesOf(src.queue.frames)
  }

  lemma TickKeepsTakenIn(src: Source, queue: Queue, frame: Frame)
    requires (queue, frame) == Pop(src.queue)
    ensures TakenIn(src.(queue := queue, trace := src.trace + [frame])) == TakenIn(src)
  {
    PopKeepsSources(src.queue);
    SourcesOfConcat(src.trace, [frame]);
    SourcesOfOne(frame);
    Associative(SourcesOf(src.trace), Sources(frame), SourcesOf(queue.frames));
  }

  lemma {:induction false} TicksKeepTakenIn(src: Source, n: nat)
    ensures TakenIn(TickSourceTimes(src, n)) == TakenIn(src)
  {
    if n > 0 {
      TicksKeepTakenIn(src, n - 1);
      var s := TickSourceTimes(src, n - 1);
      var (queue, frame) := Pop(s.queue);
      TickKeepsTakenIn(s, queue, frame);
    }
  }

  lemma PushTakesIn(src: Source, pcm: seq<Byte>, now: int)
    ensures TakenIn(src.(queue := Push(src.queue, pcm, now))) == TakenIn(src) + (if IsValid(pcm) then [pcm] else [])
  {
    PushKeepsSources(src.queue, pcm, now);
  }

  lemma PushedByOne(e: Event, source: Id)
    ensures PushedTo([e], source) == if e.PushFrame? && e.id == source && IsValid(e.pcm) then [e.pcm] else []
  {
    assert [e][1..] == [];
  }

  lemma EventTakesIn(r: Record, e: Event, source: Id)
    requires source in r.sources && e != RemoveInput(source)
    ensures source in ApplyRecord(r, e).sources
    ensures TakenIn(ApplyRecord(r, e).sources[source]) == TakenIn(r.sources[source]) + PushedTo([e], source)
  {
    PushedByOne(e, source);
    match e
    case PushFrame(id, pcm, now) =>
      if id == source {
        PushTakesIn(r.sources[source], pcm, now);
      }
    case Render(_, now, _) =>
      if r.clock.Some? {
        TicksKeepTakenIn(r.sources[source], TicksToRun(r.clock.value, now));
      }
    case _ =>
  }

  lemma PushedFirst(events: seq<Event>, source: Id)
    requires events != []
    ensures PushedTo(events, source) == PushedTo([events[0]], source) + PushedTo(events[1..], source)
  {
    assert [events[0]][1..] == [];
  }

  lemma {:induction false} RunTakesIn(r: Record, events: seq<Event>, source: Id)
    requires source in r.sources && Stays(events, source)
    ensures source in RunRecord(r, events).sources
    ensures TakenIn(RunRecord(r, events).sources[source]) == TakenIn(r.sources[source]) + PushedTo(events, source)
    decreases events
  {
    if events != [] {
      var e := events[0];
      assert e in events;
      EventTakesIn(r, e, source);
      RunTakesIn(ApplyRecord(r, e), events[1..], source);
      PushedFirst(events, source);
      Associative(TakenIn(r.sources[source]), PushedTo([e], source), PushedTo(events[1..], source));
    }
  }

  /** The frames a source played at the ticks in `(lo, hi]`. */
  function FramesIn(src: Source, lo: int, hi: int): (fs: seq<Frame>)
    requires lo <= hi
    ensures |fs| == hi - lo && forall k | 0 <= k < |fs| :: fs[k] == TraceAt(src, lo + 1 + k)
  {
    seq(hi - lo, k => TraceAt(src, lo + 1 + k))
  }

  function PlayedAt(src: Source, lo: int, hi: int): seq<seq<Byte>>
    requires lo <= hi
  {
    SourcesOf(FramesIn(src, lo, hi))
  }

  lemma PlayedAtSplits(src: Source, lo: int, mid: int, hi: int)
    requires lo <= mid <= hi
    ensures PlayedAt(src, lo, hi) == PlayedAt(src, lo, mid) + PlayedAt(src, mid, hi)
  {
    assert FramesIn(src, lo, hi) == FramesIn(src, lo, mid) + FramesIn(src, mid, hi);
    SourcesOfConcat(FramesIn(src, lo, mid), FramesIn(src, mid, hi));
  }

  lemma {:induction false} SilenceCarriesNothing(fs: seq<Frame>)
    requires forall k | 0 <= k < |fs| :: fs[k] == Silent
    ensures SourcesOf(fs) == []
  {
    if fs != [] {
      SilenceCarriesNothing(fs[1..]);
    }
  }

  lemma PlayedAltogether(src: Source)
    ensures PlayedAt(src, 0, src.birth + |src.trace|) == SourcesOf(src.trace)
  {
    PlayedAtSplits(src, 0, src.birth, src.birth + |src.trace|);
    SilenceCarriesNothing(FramesIn(src, 0, src.birth));
    assert FramesIn(src, src.birth, src.birth + |src.trace|) == src.trace;
  }

  /** A record cut at two ticks, the middle part given by the ticks themselves. */
  lemma TakenInByPart(src: Source, ticks: seq<int>, from: nat, to: nat, end: nat)
    requires from <= to <= end == src.birth + |src.trace|
    requires |ticks| == to - from && forall i | 0 <= i < |ticks| :: ticks[i] == from + 1 + i
    ensures TakenIn(src) == PlayedAt(src, 0, from) + SourcesOf(FramesAt(src, ticks)) + PlayedAt(src, to, end)
                          + SourcesOf(src.queue.frames)
  {
    assert FramesAt(src, ticks) == FramesIn(src, from, to);
    PlayedAtSplits(src, 0, from, end);
    PlayedAtSplits(src, from, to, end);
    PlayedAltogether(src);
    Associative(PlayedAt(src, 0, from), PlayedAt(src, from, to), PlayedAt(src, to, end));
  }

  /** `total` is, in order: played up to tick `first`, `heard`, played after tick `last`, queued. */
  predicate InParts(src: Source, first: int, heard: seq<seq<Byte>>, last: int, total: seq<seq<Byte>>) {
    && 0 <= first <= last <= src.birth + |src.trace|
    && total == PlayedAt(src, 0, first) + heard + PlayedAt(src, last, src.birth + |src.trace|)
              + SourcesOf(src.queue.frames)
  }

  /**
   From arrival to listener.  Over any run of a registered listener and a registered source that always
   reaches it, in which the listener's steps skip nothing, every frame the source ever took in is, in arrival
   order and exactly once, one of: played before the listener's position at the start, heard by
   the listener, played at a tick the listener has yet to hear, or still queued.
   */
  lemma {:induction false} EveryFrameIsHeardInOrder(g: Graph, r: Record, events: seq<Event>, id: Id, source: Id)
    requires WellFormed(g) && id in g.cursors && Agrees(g, r) && source in r.sources
    requires Stays(events, id) && Stays(events, source) && AlwaysReaches(events, id, source)
    requires SkippedIn(g, events, id) == 0
    ensures id in Run(g, events).cursors && source in RunRecord(r, events).sources
    ensures InParts(RunRecord(r, events).sources[source], g.cursors[id], DeliveredIn(g, events, id, source),
                    Run(g, events).cursors[id], TakenIn(r.sources[source]) + PushedTo(events, source))
  {
    HeardOrCounted(g, events, id);
    NothingSkippedAllHeard(g, events, id);
    DeliveredIsRecorded(g, r, events, id, source);
    AlwaysHeard(g, events, id, source);
    RunTakesIn(r, events, source);
    RunAgrees(g, r, events);
    var g', src := Run(g, events), RunRecord(r, events).sources[source];
    assert SlotAgrees(g'.media.inputs[source], src, g'.media.tickCount);
    TakenInByPart(src, HeardIn(g, events, id), g.cursors[id], g'.cursors[id], g'.media.tickCount);
  }

  // ----- from the render that registers the listener

  /** What the render that registers listener `id` plays of `source`. */
  function DeliveredJoining(g: Graph, now: int, audible: set<Id>, id: Id, source: Id): seq<seq<Byte>>
    requires WellFormed(g) && id !in g.cursors && source in g.media.inputs
  {
    if source !in audible then []
    else Sources(Heard(StepAt(Advanced(g, now), id, now).0, Advanced(g, now).media.inputs[source].history))
  }

  /** It is the record's frame at the newest tick the render may hear, if that tick is held. */
  lemma JoiningDelivers(a: Graph, r: Record, now: int, id: Id, source: Id)
    requires WellFormed(a) && id !in a.cursors && Agrees(a, r) && source in r.sources
    ensures Sources(Heard(StepAt(a, id, now).0, a.media.inputs[source].history))
         == SourcesOf(FramesAt(r.sources[source], HeardJoining(a.media, now)))
  {
    var newest := Newest(a.media.clock, a.media.tickCount, now);
    JoiningHearsTheNewest(a, id, now);
    JoinedFrame(a.media.inputs[source], r.sources[source], r.tickCount, newest);
  }

  lemma JoinedFrame(s: Slot, src: Source, tickCount: nat, newest: nat)
    requires SlotAgrees(s, src, tickCount) && newest <= tickCount
    ensures Sources(FrameAtLag(s.history, tickCount - newest))
         == SourcesOf(FramesAt(src, if OldestHeld(tickCount) <= newest && 0 < newest then [newest] else []))
  {
    var played := FrameAtLag(s.history, tickCount - newest);
    if OldestHeld(tickCount) <= newest && 0 < newest {
      assert played == TraceAt(src, newest);
      assert FramesAt(src, [newest]) == [played];
      SourcesOfOne(played);
    } else {
      assert played == Silent;
    }
  }

  /** The state after the registering render, and what it delivered. */
  lemma AfterJoining(g: Graph, r: Record, now: int, audible: set<Id>, id: Id, source: Id)
    requires WellFormed(g) && id !in g.cursors && Agrees(g, r) && source in r.sources && source in audible
    ensures var g0, r0 := Apply(g, Render(id, now, audible)), AdvanceRecord(r, now);
            && Agrees(g0, r0) && id in g0.cursors && source in r0.sources
            && TakenIn(r0.sources[source]) == TakenIn(r.sources[source])
            && var joining := HeardJoining(g0.media, now);
            && (joining == [] || (joining == [g0.cursors[id]] && g0.cursors[id] > 0))
            && DeliveredJoining(g, now, audible, id, source) == SourcesOf(FramesAt(r0.sources[source], joining))
  {
    var e := Render(id, now, audible);
    var a, r0 := Advanced(g, now), AdvanceRecord(r, now);
    AdvanceAgrees(g, r, now);
    ApplyAgrees(g, r, e);
    EventTakesIn(r, e, source);
    JoiningDelivers(a, r0, now, id, source);
    JoiningHearsTheNewest(a, id, now);
    PushedByOne(e, source);
  }

  lemma JoinParts(
      src: Source, end: Source, joining: seq<int>, joined: seq<seq<Byte>>, newest: nat, first: int,
      heard: seq<seq<Byte>>, last: int, total: seq<seq<Byte>>)
    requires src.birth == end.birth && src.trace <= end.trace && newest <= src.birth + |src.trace|
    requires joining == [] || (joining == [newest] && newest > 0)
    requires joined == SourcesOf(FramesAt(src, joining)) && first == newest - |joining|
    requires InParts(end, newest, heard, last, total)
    ensures InParts(end, first, joined + heard, last, total)
  {
    PlayedAtSplits(end, 0, first, newest);
    assert FramesIn(end, first, newest) == FramesAt(src, joining);
    Associative(PlayedAt(end, 0, first), joined, heard);
  }

  /** The account of a run with the tick the listener is at, if `joining` has it, among the ticks heard. */
  lemma EveryFrameAfterTick(
      g: Graph, r: Record, joining: seq<int>, joined: seq<seq<Byte>>, first: int, taken: seq<seq<Byte>>,
      events: seq<Event>, id: Id, source: Id)
    requires WellFormed(g) && id in g.cursors && Agrees(g, r) && source in r.sources
    requires Stays(events, id) && Stays(events, source) && AlwaysReaches(events, id, source)
    requires SkippedIn(g, events, id) == 0
    requires joining == [] || (joining == [g.cursors[id]] && g.cursors[id] > 0)
    requires joined == SourcesOf(FramesAt(r.sources[source], joining)) && first == g.cursors[id] - |joining|
    requires taken == TakenIn(r.sources[source])
    ensures id in Run(g, events).cursors && source in RunRecord(r, events).sources
    ensures InParts(RunRecord(r, events).sources[source], first, joined + DeliveredIn(g, events, id, source),
                    Run(g, events).cursors[id], taken + PushedTo(events, source))
  {
    EveryFrameIsHeardInOrder(g, r, events, id, source);
    RecordGrows(r, events, source);
    RecordedSoFar(g, r, id, source);
    JoinParts(r.sources[source], RunRecord(r, events).sources[source], joining, joined, g.cursors[id], first,
              DeliveredIn(g, events, id, source), Run(g, events).cursors[id], taken + PushedTo(events, source));
  }

  lemma RecordedSoFar(g: Graph, r: Record, id: Id, source: Id)
    requires WellFormed(g) && id in g.cursors && Agrees(g, r) && source in r.sources
    ensures g.cursors[id] <= r.sources[source].birth + |r.sources[source].trace|
  {
    assert SlotAgrees(g.media.inputs[source], r.sources[source], r.tickCount);
  }

  /**
   The same account from the render that registers the listener, for the first time or again after its
   removal: the parts are what was played before the tick heard there, that tick and those heard since,
   those yet to be heard, and what is queued.
   */
  lemma EveryFrameSinceJoining(
      g: Graph, r: Record, now: int, audible: set<Id>, events: seq<Event>, id: Id, source: Id)
    requires WellFormed(g) && id !in g.cursors && Agrees(g, r) && source in r.sources && source in audible
    requires Stays(events, id) && Stays(events, source) && AlwaysReaches(events, id, source)
    requires SkippedIn(Apply(g, Render(id, now, audible)), events, id) == 0
    ensures var g0, r0 := Apply(g, Render(id, now, audible)), AdvanceRecord(r, now);
            && id in g0.cursors && id in Run(g0, events).cursors
            && source in g0.media.inputs && source in RunRecord(r0, events).sources
            && InParts(RunRecord(r0, events).sources[source],
                       g0.cursors[id] - |HeardJoining(g0.media, now)|,
                       DeliveredJoining(g, now, audible, id, source) + DeliveredIn(g0, events, id, source),
                       Run(g0, events).cursors[id],
                       TakenIn(r.sources[source]) + PushedTo(events, source))
  {
    var g0, r0 := Apply(g, Render(id, now, audible)), AdvanceRecord(r, now);
    AfterJoining(g, r, now, audible, id, source);
    var joining := HeardJoining(g0.media, now);
    EveryFrameAfterTick(g0, r0, joining, DeliveredJoining(g, now, audible, id, source), g0.cursors[id] - |joining|,
                        TakenIn(r.sources[source]), events, id, source);
  }

  /** What `source` has taken in since it was registered, nothing if it is not. */
  function Taken(r: Record, source: Id): seq<seq<Byte>> {
    if source in r.sources then TakenIn(r.sources[source]) else []
  }

  lemma EventTaken(r: Record, e: Event, source: Id)
    requires e != RemoveInput(source)
    ensures Taken(ApplyRecord(r, e), source) == Taken(r, source) + PushedTo([e], source)
  {
    if source in r.sources {
      EventTakesIn(r, e, source);
    } else {
      PushedByOne(e, source);
      if e.PushFrame? && e.id == source {
        PushTakesIn(Source(New(), [], r.tickCount), e.pcm, e.now);
      }
    }
  }

  lemma {:induction false} RunTaken(r: Record, events: seq<Event>, source: Id)
    requires Stays(events, source)
    ensures Taken(RunRecord(r, events), source) == Taken(r, source) + PushedTo(events, source)
    decreases events
  {
    if events != [] {
      var e := events[0];
      assert e in events;
      EventTaken(r, e, source);
      RunTaken(ApplyRecord(r, e), events[1..], source);
      PushedFirst(events, source);
      Associative(Taken(r, source), PushedTo([e], source), PushedTo(events[1..], source));
    }
  }

  /** From the empty graph, the graph's histories and its full record agree, and the record forgets nothing taken in. */
  lemma RunsFromEmpty(events: seq<Event>, source: Id)
    requires Stays(events, source)
    ensures WellFormed(EMPTY) && Agrees(Run(EMPTY, events), RunRecord(EMPTY_RECORD, events))
    ensures Taken(RunRecord(EMPTY_RECORD, events), source) == PushedTo(events, source)
  {
    EmptyAgrees();
    RunAgrees(EMPTY, EMPTY_RECORD, events);
    RunTaken(EMPTY_RECORD, events, source);
  }

  /**
   From the empty graph, with nothing assumed of its state: whatever happens before, at and after the
   first render of a listener, every frame ever pushed to a source is in exactly one of the parts.
   */
  lemma EveryFrameFromTheStart(
      before: seq<Event>, now: int, audible: set<Id>, events: seq<Event>, id: Id, source: Id)
    requires WellFormed(EMPTY) && id !in Run(EMPTY, before).cursors && source in Run(EMPTY, before).media.inputs
    requires source in audible && AlwaysReaches(events, id, source)
    requires Stays(before, source) && Stays(events, source) && Stays(events, id)
    requires SkippedIn(Apply(Run(EMPTY, before), Render(id, now, audible)), events, id) == 0
    ensures var g := Run(EMPTY, before);
            var g0, r0 := Apply(g, Render(id, now, audible)), AdvanceRecord(RunRecord(EMPTY_RECORD, before), now);
            && id in g0.cursors && id in Run(g0, events).cursors
            && source in g0.media.inputs && source in RunRecord(r0, events).sources
            && InParts(RunRecord(r0, events).sources[source],
                       g0.cursors[id] - |HeardJoining(g0.media, now)|,
                       DeliveredJoining(g, now, audible, id, source) + DeliveredIn(g0, events, id, source),
                       Run(g0, events).cursors[id],
                       PushedTo(before, source) + PushedTo(events, source))
  {
    RunsFromEmpty(before, source);
    EveryFrameSinceJoining(Run(EMPTY, before), RunRecord(EMPTY_RECORD, before), now, audible, events, id, source);
  }

  // ----- played, heard and skipped

  /** How many of the frames are source audio, as the queue counts them in `played`. */
  function PlayedCount(fs: seq<Frame>): nat
  {
    if fs == [] then 0
    else PlayedCount(fs[..|fs| - 1]) + if ElasticRuns.IsPlayed(fs[|fs| - 1]) then 1 else 0
  }

  lemma {:induction false} PlayedCountBounds(fs: seq<Frame>)
    ensures PlayedCount(fs) <= |fs|
    ensures PlayedCount(fs) == |fs| <==> forall k | 0 <= k < |fs| :: ElasticRuns.IsPlayed(fs[k])
  {
    if fs != [] {
      PlayedCountBounds(fs[..|fs| - 1]);
      assert fs == fs[..|fs| - 1] + [fs[|fs| - 1]];
    }
  }

  lemma {:induction false} PlayedCountAdds(a: seq<Frame>, b: seq<Frame>)
    ensures PlayedCount(a + b) == PlayedCount(a) + PlayedCount(b)
  {
    if b == [] {
      assert a + b == a;
    } else {
      PlayedCountAdds(a, b[..|b| - 1]);
      assert (a + b)[..|a + b| - 1] == a + b[..|b| - 1];
    }
  }

  /** The queue's counter counts the played frames of the record. */
  ghost predicate Counted(src: Source) {
    ElasticRuns.HoldsAudio(src.queue) && src.queue.played == PlayedCount(src.trace)
  }

  lemma {:induction false} TicksKeepCounted(src: Source, n: nat)
    requires Counted(src)
    ensures Counted(TickSourceTimes(src, n))
  {
    if n > 0 {
      TicksKeepCounted(src, n - 1);
      var s := TickSourceTimes(src, n - 1);
      var (queue, frame) := Pop(s.queue);
      ElasticRuns.PopCountsPlayed(s.queue);
      assert (s.trace + [frame])[..|s.trace|] == s.trace;
    }
  }

  ghost predicate AllCounted(r: Record) {
    forall id | id in r.sources :: Counted(r.sources[id])
  }

  lemma ApplyKeepsCounted(r: Record, e: Event)
    requires AllCounted(r)
    ensures AllCounted(ApplyRecord(r, e))
  {
    match e
    case PushFrame(id, pcm, now) =>
      var queue := if id in r.sources then r.sources[id].queue else New();
      ElasticRuns.PushKeepsAudio(queue, pcm, now);
    case Render(_, now, _) =>
      if r.clock.Some? {
        forall id | id in r.sources ensures Counted(ApplyRecord(r, e).sources[id]) {
          TicksKeepCounted(r.sources[id], TicksToRun(r.clock.value, now));
        }
      }
    case _ =>
  }

  lemma {:induction false} RunKeepsCounted(r: Record, events: seq<Event>)
    requires AllCounted(r)
    ensures AllCounted(RunRecord(r, events))
    decreases events
  {
    if events != [] {
      ApplyKeepsCounted(r, events[0]);
      RunKeepsCounted(ApplyRecord(r, events[0]), events[1..]);
    }
  }

  /** From the empty graph, the `played` counter of a source is the number of played frames in its record. */
  lemma PlayedCountersFromEmpty(events: seq<Event>, source: Id)
    requires source in RunRecord(EMPTY_RECORD, events).sources
    ensures Counted(RunRecord(EMPTY_RECORD, events).sources[source])
  {
    RunKeepsCounted(EMPTY_RECORD, events);
  }

  lemma PlayedCountMore(fs: seq<Frame>, f: Frame)
    ensures PlayedCount(fs + [f]) == PlayedCount(fs) + if ElasticRuns.IsPlayed(f) then 1 else 0
  {
    assert (fs + [f])[..|fs|] == fs;
  }

  lemma PlayedAtOneMore(src: Source, ticks: seq<int>, t: int)
    ensures PlayedCount(FramesAt(src, ticks + [t]))
         == PlayedCount(FramesAt(src, ticks)) + if ElasticRuns.IsPlayed(TraceAt(src, t)) then 1 else 0
  {
    assert FramesAt(src, ticks + [t]) == FramesAt(src, ticks) + [TraceAt(src, t)];
    PlayedCountMore(FramesAt(src, ticks), TraceAt(src, t));
  }

  lemma PlayedInOneMore(src: Source, lo: int, hi: int)
    requires lo < hi
    ensures PlayedCount(FramesIn(src, lo, hi))
         == PlayedCount(FramesIn(src, lo, hi - 1)) + if ElasticRuns.IsPlayed(TraceAt(src, hi)) then 1 else 0
  {
    assert FramesIn(src, lo, hi) == FramesIn(src, lo, hi - 1) + [TraceAt(src, hi)];
    PlayedCountMore(FramesIn(src, lo, hi - 1), TraceAt(src, hi));
  }

  ghost predicate SplitsPlayed(src: Source, ticks: seq<int>, missed: seq<int>, lo: int, hi: int)
    requires lo <= hi
  {
    PlayedCount(FramesIn(src, lo, hi)) == PlayedCount(FramesAt(src, ticks)) + PlayedCount(FramesAt(src, missed))
  }

  lemma SplitsOneMore(src: Source, ticks: seq<int>, missed: seq<int>, lo: int, hi: int)
    requires lo < hi && SplitsPlayed(src, ticks, missed, lo, hi - 1)
    ensures SplitsPlayed(src, ticks + [hi], missed, lo, hi) && SplitsPlayed(src, ticks, missed + [hi], lo, hi)
  {
    PlayedInOneMore(src, lo, hi);
    PlayedAtOneMore(src, ticks, hi);
    PlayedAtOneMore(src, missed, hi);
  }

  /** What is played in a range is played at the ticks heard and at those missed. */
  lemma {:induction false} PlayedByPart(src: Source, ticks: seq<int>, lo: int, hi: int)
    requires IncreasingIn(ticks, lo, hi) && lo <= hi
    ensures SplitsPlayed(src, ticks, Missed(ticks, lo, hi), lo, hi)
    decreases hi - lo
  {
    if lo == hi {
      NoMoreThanRange(ticks, lo, hi);
    } else if ticks != [] && ticks[|ticks| - 1] == hi {
      var before := ticks[..|ticks| - 1];
      BeforeLast(ticks, lo, hi);
      PlayedByPart(src, before, lo, hi - 1);
      SplitsOneMore(src, before, Missed(before, lo, hi - 1), lo, hi);
    } else {
      NotAtEnd(ticks, lo, hi);
      PlayedByPart(src, ticks, lo, hi - 1);
      SplitsOneMore(src, ticks, Missed(ticks, lo, hi - 1), lo, hi);
    }
  }

  /**
   Played, heard and skipped.  Over any run of a listener and a source that always reaches it, the ticks
   it passed without hearing them are as many as were counted as skipped, and what it heard is what
   the source played less what was played at those.  So it heard at least `played` less `skipped`, and
   exactly that if and only if every skipped tick played source audio rather than silence.
   */
  lemma HeardIsPlayedLessMissed(g: Graph, r: Record, events: seq<Event>, id: Id, source: Id)
    requires WellFormed(g) && id in g.cursors && Agrees(g, r) && source in r.sources
    requires Stays(events, id) && Stays(events, source) && AlwaysReaches(events, id, source)
    ensures id in Run(g, events).cursors && source in RunRecord(r, events).sources
    ensures var from, to := g.cursors[id], Run(g, events).cursors[id];
            var src, heard := RunRecord(r, events).sources[source], HeardFromIn(g, events, id, source);
            var missed, skipped := Missed(heard, from, to), SkippedIn(g, events, id);
            from <= to &&
            var played, received := PlayedCount(FramesIn(src, from, to)), PlayedCount(FramesAt(src, heard));
            && (forall t | from < t <= to :: t in missed <==> t !in heard)
            && |missed| == skipped
            && received == played - PlayedCount(FramesAt(src, missed))
            && played - skipped <= received <= played
            && (received == played - skipped
                <==> forall k | 0 <= k < |missed| :: ElasticRuns.IsPlayed(TraceAt(src, missed[k])))
  {
    RecordGrows(r, events, source);
    HeardOrCounted(g, events, id);
    AlwaysHeard(g, events, id, source);
    var from, to := g.cursors[id], Run(g, events).cursors[id];
    var src, heard := RunRecord(r, events).sources[source], HeardFromIn(g, events, id, source);
    forall t | from < t <= to ensures t in Missed(heard, from, to) <==> t !in heard {
      MissedIsNotHeard(heard, from, to, t);
    }
    HeardAndMissed(heard, from, to);
    PlayedByPart(src, heard, from, to);
    var at := FramesAt(src, Missed(heard, from, to));
    PlayedCountBounds(at);
    assert forall k | 0 <= k < |at| :: at[k] == TraceAt(src, Missed(heard, from, to)[k]);
  }

  /** The whole `played` counter of a source, by where a listener is. */
  lemma PlayedCounterByPart(src: Source, from: nat, to: nat, end: nat)
    requires Counted(src) && from <= to <= end == src.birth + |src.trace|
    ensures src.queue.played == PlayedCount(FramesIn(src, 0, from)) + PlayedCount(FramesIn(src, from, to))
                              + PlayedCount(FramesIn(src, to, end))
  {
    assert FramesIn(src, 0, end) == FramesIn(src, 0, src.birth) + src.trace;
    PlayedCountAdds(FramesIn(src, 0, src.birth), src.trace);
    NothingPlayed(FramesIn(src, 0, src.birth));
    assert FramesIn(src, 0, end) == (FramesIn(src, 0, from) + FramesIn(src, from, to)) + FramesIn(src, to, end);
    PlayedCountAdds(FramesIn(src, 0, from) + FramesIn(src, from, to), FramesIn(src, to, end));
    PlayedCountAdds(FramesIn(src, 0, from), FramesIn(src, from, to));
  }

  lemma {:induction false} NothingPlayed(fs: seq<Frame>)
    requires forall k | 0 <= k < |fs| :: fs[k] == Silent
    ensures PlayedCount(fs) == 0
  {
    if fs != [] {
      NothingPlayed(fs[..|fs| - 1]);
    }
  }

  // ----- skipped ticks need not have played

  /** A source to which nothing has ever been pushed, and which has played nothing but silence. */
  ghost predicate NeverFed(src: Source) {
    src.queue == New() && forall k | 0 <= k < |src.trace| :: src.trace[k] == Silent
  }

  lemma {:induction false} TicksKeepNeverFed(src: Source, n: nat)
    requires NeverFed(src)
    ensures NeverFed(TickSourceTimes(src, n))
  {
    if n > 0 {
      TicksKeepNeverFed(src, n - 1);
    }
  }

  lemma {:induction false} RendersKeepNeverFed(r: Record, events: seq<Event>, source: Id)
    requires source in r.sources && NeverFed(r.sources[source])
    requires forall i | 0 <= i < |events| :: events[i].Render?
    ensures source in RunRecord(r, events).sources && NeverFed(RunRecord(r, events).sources[source])
    decreases events
  {
    if events != [] {
      if r.clock.Some? {
        TicksKeepNeverFed(r.sources[source], TicksToRun(r.clock.value, events[0].now));
      }
      RendersKeepNeverFed(AdvanceRecord(r, events[0].now), events[1..], source);
    }
  }

  /** Another listener's render 8 ticks later moves the clock and leaves `id` where it was. */
  lemma OtherRender(g: Graph, id: Id, other: Id, now: int)
    requires WellFormed(g) && id in g.cursors && id != other && g.media.clock == Some(now - 160_000)
    ensures var g' := Apply(g, Render(other, now, {}));
            && g'.media.clock == Some(now) && g'.media.tickCount == g.media.tickCount + 8
            && id in g'.cursors && g'.cursors[id] == g.cursors[id]
    ensures SkippedAt(g, Render(other, now, {}), id) == 0
  {
  }

  /** A render of a listener 16 ticks behind on a clock that need not be moved. */
  lemma RenderSixteenLate(g: Graph, id: Id, now: int, audible: set<Id>)
    requires WellFormed(g) && id in g.cursors && g.media.clock == Some(now)
    requires g.media.tickCount == 16 && g.cursors[id] == 0
    ensures SkippedAt(g, Render(id, now, audible), id) == 15
  {
    assert Advanced(g, now).media.tickCount == 16 && Advanced(g, now).media.clock == Some(now);
    assert NextStep(16, 16, 0) == (Jump(0, 15), 16);
  }

  lemma SkippedFirst(g: Graph, e: Event, rest: seq<Event>, id: Id)
    requires WellFormed(g)
    ensures SkippedIn(g, [e] + rest, id) == SkippedAt(g, e, id) + SkippedIn(Apply(g, e), rest, id)
  {
    assert ([e] + rest)[1..] == rest;
  }

  /** The state after a source has been registered and a listener has rendered once. */
  lemma RegisteredAndRendered(id: Id, source: Id, start: int)
    ensures WellFormed(EMPTY)
    ensures var events := [AddInput(source), Render(id, start, {source})];
            var g, r := Run(EMPTY, events), RunRecord(EMPTY_RECORD, events);
            && g.media.clock == Some(start) && g.media.tickCount == 0 && id in g.cursors && g.cursors[id] == 0
            && Agrees(g, r) && source in r.sources && NeverFed(r.sources[source])
  {
    var first, second := AddInput(source), Render(id, start, {source});
    var g1, r1 := Apply(EMPTY, first), ApplyRecord(EMPTY_RECORD, first);
    assert [first, second][1..] == [second] && [second][1..] == [];
    assert Run(EMPTY, [first, second]) == Run(g1, [second]) == Apply(g1, second);
    assert RunRecord(EMPTY_RECORD, [first, second]) == RunRecord(r1, [second]) == ApplyRecord(r1, second);
    EmptyAgrees();
    RunAgrees(EMPTY, EMPTY_RECORD, [first, second]);
  }

  /** The renders that leave listener `id` 16 ticks behind, and its own. */
  function LateBySixteen(id: Id, other: Id, start: int, audible: set<Id>): seq<Event> {
    [Render(other, start + 160_000, {}), Render(other, start + 320_000, {}), Render(id, start + 320_000, audible)]
  }

  lemma SixteenLate(g: Graph, id: Id, other: Id, start: int, audible: set<Id>)
    requires WellFormed(g) && id in g.cursors && id != other
    requires g.media.clock == Some(start) && g.media.tickCount == 0 && g.cursors[id] == 0
    ensures SkippedIn(g, LateBySixteen(id, other, start, audible), id) == 15
  {
    var e1, e2 := Render(other, start + 160_000, {}), Render(other, start + 320_000, {});
    var e3 := Render(id, start + 320_000, audible);
    var g1 := Apply(g, e1);
    var g2 := Apply(g1, e2);
    assert LateBySixteen(id, other, start, audible) == [e1] + ([e2] + ([e3] + []));
    OtherRender(g, id, other, start + 160_000);
    OtherRender(g1, id, other, start + 320_000);
    RenderSixteenLate(g2, id, start + 320_000, audible);
    SkippedFirst(g, e1, [e2] + ([e3] + []), id);
    SkippedFirst(g1, e2, [e3] + [], id);
    SkippedFirst(g2, e3, [], id);
  }

  lemma NeverFedPlaysNothing(r: Record, events: seq<Event>, source: Id)
    requires source in r.sources && NeverFed(r.sources[source])
    requires forall i | 0 <= i < |events| :: events[i].Render?
    ensures source in RunRecord(r, events).sources
    ensures PlayedCount(RunRecord(r, events).sources[source].trace) == 0
  {
    RendersKeepNeverFed(r, events, source);
    NothingPlayed(RunRecord(r, events).sources[source].trace);
  }

  /**
   So `played` less `skipped` can be far from what is heard.  From the empty graph, a listener whose source
   never sends anything renders at `start` and then, while another one keeps the clock going, not before
   320 ms later: 15 of the ticks it skips are counted, none of them played, and nothing was lost.
   */
  lemma SkippedSilence(id: Id, other: Id, source: Id, start: int)
    requires id != other
    ensures WellFormed(EMPTY)
    ensures var events := [AddInput(source), Render(id, start, {source})];
            var rest := LateBySixteen(id, other, start, {source});
            var g, r := Run(EMPTY, events), RunRecord(EMPTY_RECORD, events);
            && source in RunRecord(r, rest).sources
            && SkippedIn(g, rest, id) == 15
            && PlayedCount(RunRecord(r, rest).sources[source].trace) == 0
  {
    var events := [AddInput(source), Render(id, start, {source})];
    RegisteredAndRendered(id, source, start);
    SixteenLate(Run(EMPTY, events), id, other, start, {source});
    NeverFedPlaysNothing(RunRecord(EMPTY_RECORD, events), LateBySixteen(id, other, start, {source}), source);
  }

  // ----- two listeners in one tick

  /** A listener at most one tick behind what it may hear, on a tick that is still held. */
  predicate KeepsUp(g: Graph, id: Id, now: int, tick: nat) {
    && Newest(g.media.clock, g.media.tickCount, now) == tick
    && OldestHeld(g.media.tickCount) <= tick && CursorAt(g, id, now) <= tick <= CursorAt(g, id, now) + 1
  }

  /**
   Of the listeners that are not past `tick`, one that keeps up plays just it; one that is further behind
   does not: it merges or jumps.
   */
  lemma KeepingUpPlaysTick(g: Graph, id: Id, now: int, tick: nat)
    requires WellFormed(g) && Newest(g.media.clock, g.media.tickCount, now) == tick
    requires OldestHeld(g.media.tickCount) <= tick && CursorAt(g, id, now) <= tick
    ensures StepAt(g, id, now).0 == Single(g.media.tickCount - tick) <==> KeepsUp(g, id, now, tick)
  {
  }

  /** What it plays of a source is the record's frame at the tick. */
  lemma KeepingUpPlaysRecord(g: Graph, r: Record, id: Id, now: int, tick: nat, source: Id)
    requires WellFormed(g) && Agrees(g, r) && source in r.sources && KeepsUp(g, id, now, tick)
    ensures Heard(StepAt(g, id, now).0, g.media.inputs[source].history) == TraceAt(r.sources[source], tick)
    ensures tick <= r.sources[source].birth + |r.sources[source].trace|
  {
    KeepingUpPlaysTick(g, id, now, tick);
    HistoryServesRecord(g, r, source, tick);
    assert SlotAgrees(g.media.inputs[source], r.sources[source], r.tickCount);
  }

  /**
   Two listeners that render in the same tick mix the same frame of every source, whenever in the run they
   render and whatever happens in between, as long as neither is more than one tick behind.
   */
  lemma SameTickSameFrame(
      g: Graph, r: Record, a: Id, nowA: int, audible: set<Id>, events: seq<Event>, b: Id, nowB: int,
      tick: nat, source: Id)
    requires WellFormed(g) && Agrees(g, r) && source in r.sources && Stays(events, source)
    requires KeepsUp(Advanced(g, nowA), a, nowA, tick)
    requires KeepsUp(Advanced(Run(Apply(g, Render(a, nowA, audible)), events), nowB), b, nowB, tick)
    ensures var first := Advanced(g, nowA);
            var second := Advanced(Run(Apply(g, Render(a, nowA, audible)), events), nowB);
            && source in first.media.inputs && source in second.media.inputs
            && Heard(StepAt(first, a, nowA).0, first.media.inputs[source].history)
               == Heard(StepAt(second, b, nowB).0, second.media.inputs[source].history)
  {
    var e := Render(a, nowA, audible);
    var r1 := AdvanceRecord(r, nowA);
    var r2 := RunRecord(r1, events);
    AdvanceAgrees(g, r, nowA);
    KeepingUpPlaysRecord(Advanced(g, nowA), r1, a, nowA, tick, source);
    ApplyAgrees(g, r, e);
    RunAgrees(Apply(g, e), r1, events);
    RecordGrows(r1, events, source);
    PlaysSameLater(Run(Apply(g, e), events), r1, r2, b, nowB, tick, source);
  }

  lemma PlaysSameLater(g: Graph, before: Record, r: Record, id: Id, now: int, tick: nat, source: Id)
    requires WellFormed(g) && Agrees(g, r) && source in before.sources && source in r.sources
    requires before.sources[source].birth == r.sources[source].birth
    requires before.sources[source].trace <= r.sources[source].trace
    requires tick <= before.sources[source].birth + |before.sources[source].trace|
    requires KeepsUp(Advanced(g, now), id, now, tick)
    ensures source in Advanced(g, now).media.inputs
    ensures Heard(StepAt(Advanced(g, now), id, now).0, Advanced(g, now).media.inputs[source].history)
         == TraceAt(before.sources[source], tick)
  {
    var r' := AdvanceRecord(r, now);
    AdvanceAgrees(g, r, now);
    AdvanceGrows(r, now, source);
    KeepingUpPlaysRecord(Advanced(g, now), r', id, now, tick, source);
    PastStays(before.sources[source], r'.sources[source], tick);
  }

  lemma AdvanceGrows(r: Record, now: int, source: Id)
    requires source in r.sources
    ensures source in AdvanceRecord(r, now).sources
    ensures var s, s' := r.sources[source], AdvanceRecord(r, now).sources[source];
            s.birth == s'.birth && s.trace <= s'.trace
  {
  }

  lemma PastStays(before: Source, after: Source, tick: nat)
    requires before.birth == after.birth && before.trace <= after.trace && tick <= before.birth + |before.trace|
    ensures TraceAt(before, tick) == TraceAt(after, tick)
  {
  }
}
