/**
 Where one listener is in the media ticks: what a render hears, and what a whole run hears.
 */
module Listeners {
  import opened Wrappers
  import opened Frames
  import opened MediaClock
  import opened MixModel

  /** The ticks a step hears for the first time, for a listener that was at `cursor`. */
  function NewlyHeard(step: ListenerStep, tickCount: nat, cursor: nat): seq<int> {
    match step
    case Single(lag) => if tickCount - lag > cursor then [tickCount - lag] else []
    case Merge(older, newer) => [tickCount - older, tickCount - newer]
    case Jump(lag, _) => if lag < HISTORY_TICKS then [tickCount - lag] else []
  }

  /** Strictly increasing ticks in `(lo, hi]`. */
  ghost predicate IncreasingIn(ticks: seq<int>, lo: int, hi: int) {
    && (forall i | 0 <= i < |ticks| :: lo < ticks[i] <= hi)
    && (forall i, j | 0 <= i < j < |ticks| :: ticks[i] < ticks[j])
  }

  /**
   One render: every tick the cursor passes is heard once, in order, or counted in `skipped`; the
   cursor never passes `newest`; what is heard is still in the histories; only a step whose own newest
   tick is gone hears nothing of the ticks it passes; and what is counted as merged is the ticks heard
   beyond the one that an output frame has room for.
   */
  lemma StepAccounts(newest: nat, tickCount: nat, cursor: nat)
    requires newest <= tickCount && cursor <= tickCount
    ensures var (step, cursor') := NextStep(newest, tickCount, cursor);
            var heard := NewlyHeard(step, tickCount, cursor);
            && IncreasingIn(heard, cursor, cursor')
            && |heard| + SkippedTicks(step) == cursor' - cursor
            && (forall t <- heard :: tickCount - t < HISTORY_TICKS)
            && (cursor' > cursor ==> cursor' <= newest)
            && (cursor' > cursor && heard == [] <==> cursor < newest < OldestHeld(tickCount))
            && (cursor < newest ==> cursor' > cursor)
            && (heard != [] ==> heard[|heard| - 1] == cursor')
            && MergedTicks(step) == Max(0, |heard| - 1)
  {
  }

  /**
   Every render leaves the listener less than `MAX_CATCHUP_TICKS` behind what it may hear, and it jumps
   only when it was further behind or its next tick is gone.  A listener whose next tick is gone then
   stands at the oldest tick still held, giving up none of those, exactly when what it may hear ends
   within `MAX_CATCHUP_TICKS` ticks of that one.
   */
  lemma StepCatchesUp(newest: nat, tickCount: nat, cursor: nat)
    requires newest <= tickCount && cursor <= tickCount
    ensures var (step, cursor') := NextStep(newest, tickCount, cursor);
            && newest - cursor' < MAX_CATCHUP_TICKS
            && (step.Jump? ==> newest - cursor > MAX_CATCHUP_TICKS || cursor + 1 < OldestHeld(tickCount))
            && (cursor < newest && cursor + 1 < OldestHeld(tickCount) ==>
                  (cursor' == OldestHeld(tickCount)
                   <==> OldestHeld(tickCount) <= newest < OldestHeld(tickCount) + MAX_CATCHUP_TICKS))
            && (step.Jump? && cursor' == OldestHeld(tickCount) && cursor' <= newest
                ==> step.skipped == cursor' - cursor - 1)
            && (step.Merge? ==> step.olderLag == step.newerLag + 1 && cursor' == cursor + 2)
  {
  }

  /** A listener that has heard all it may hear, or more, repeats the tick it is at. */
  lemma NothingNewIsRepeated(newest: nat, tickCount: nat, cursor: nat)
    requires newest <= cursor <= tickCount
    ensures var (step, cursor') := NextStep(newest, tickCount, cursor);
            cursor' == cursor && step == Single(tickCount - cursor) && NewlyHeard(step, tickCount, cursor) == []
  {
  }

  /**
   Two jumps that do not end at the oldest tick still held, 83 here: a listener in the present passes all
   held ticks but the newest, and one whose own newest tick is gone stops short of them.
   */
  lemma JumpsBesideTheOldestHeld()
    ensures OldestHeld(100) == 83
    ensures NextStep(100, 100, 10) == (Jump(0, 89), 100)
    ensures NextStep(50, 100, 10) == (Jump(50, 40), 50)
  {
  }

  /** When the tick `n` was due, seen from a clock that has processed `tickCount` ticks. */
  function DueAt(clock: int, tickCount: nat, n: nat): int {
    clock - (tickCount - n) * TICK_US
  }

  /** The newest tick a render may hear is the latest one due at or before the render's own time. */
  lemma NewestIsLatestDue(clock: int, tickCount: nat, now: int)
    requires Behind(Some(clock), now) <= tickCount
    ensures var newest := Newest(Some(clock), tickCount, now);
            && DueAt(clock, tickCount, newest) <= now
            && (newest < tickCount ==> DueAt(clock, tickCount, newest + 1) > now)
  {
  }

  // ----- whole runs

  /** The step of listener `id` at an event, if the event is one of its renders. */
  function StepOf(g: Graph, e: Event, id: Id): Option<(ListenerStep, nat)>
    requires WellFormed(g)
  {
    if e.Render? && e.id == id then Some(StepAt(Advanced(g, e.now), id, e.now)) else None
  }

  function HeardAt(g: Graph, e: Event, id: Id): seq<int>
    requires WellFormed(g) && id in g.cursors
  {
    var s := StepOf(g, e, id);
    if s.None? then [] else NewlyHeard(s.value.0, Advanced(g, e.now).media.tickCount, g.cursors[id])
  }

  function SkippedAt(g: Graph, e: Event, id: Id): nat
    requires WellFormed(g)
  {
    var s := StepOf(g, e, id);
    if s.None? then 0 else SkippedTicks(s.value.0)
  }

  /** Listener `id` stays registered through a run. */
  predicate Stays(events: seq<Event>, id: Id) {
    RemoveInput(id) !in events
  }

  function HeardIn(g: Graph, events: seq<Event>, id: Id): seq<int>
    requires WellFormed(g) && id in g.cursors && Stays(events, id)
    decreases events
  {
    if events == [] then []
    else
      assert events[0] in events;
      HeardAt(g, events[0], id) + HeardIn(Apply(g, events[0]), events[1..], id)
  }

  function SkippedIn(g: Graph, events: seq<Event>, id: Id): nat
    requires WellFormed(g)
    decreases events
  {
    if events == [] then 0
    else SkippedAt(g, events[0], id) + SkippedIn(Apply(g, events[0]), events[1..], id)
  }

  lemma EventAccounts(g: Graph, e: Event, id: Id)
    requires WellFormed(g) && id in g.cursors && e != RemoveInput(id)
    ensures var g' := Apply(g, e);
            && id in g'.cursors
            && IncreasingIn(HeardAt(g, e, id), g.cursors[id], g'.cursors[id])
            && |HeardAt(g, e, id)| + SkippedAt(g, e, id) == g'.cursors[id] - g.cursors[id]
  {
    if e.Render? && e.id == id {
      var a := Advanced(g, e.now).media;
      StepAccounts(Newest(a.clock, a.tickCount, e.now), a.tickCount, g.cursors[id]);
    }
  }

  /**
   Heard or counted, exactly once.  Over any run, whatever other listeners and sources do and
   however early, late or bursty the renders are, the cursor only moves forward and stays within
   the processed ticks, and the ticks it passed are heard in increasing order, each once, or
   counted in the steps' `skipped`.
   */
  lemma {:induction false} HeardOrCounted(g: Graph, events: seq<Event>, id: Id)
    requires WellFormed(g) && id in g.cursors && Stays(events, id)
    ensures var g' := Run(g, events);
            && id in g'.cursors
            && g.cursors[id] <= g'.cursors[id] <= g'.media.tickCount
            && IncreasingIn(HeardIn(g, events, id), g.cursors[id], g'.cursors[id])
            && |HeardIn(g, events, id)| + SkippedIn(g, events, id) == g'.cursors[id] - g.cursors[id]
    decreases events
  {
    if events != [] {
      assert events[0] in events;
      EventAccounts(g, events[0], id);
      HeardOrCounted(Apply(g, events[0]), events[1..], id);
    }
  }

  /** What the render that registers a listener hears: the newest tick it may hear, if that is held. */
  function HeardJoining(m: Media, now: int): seq<int> {
    var newest := Newest(m.clock, m.tickCount, now);
    if OldestHeld(m.tickCount) <= newest && 0 < newest then [newest] else []
  }

  /** A listener without a position starts at the newest tick it may hear, late or early, and hears that one. */
  lemma JoiningHearsTheNewest(g: Graph, id: Id, now: int)
    requires WellFormed(g) && id !in g.cursors
    ensures var newest := Newest(g.media.clock, g.media.tickCount, now);
            StepAt(g, id, now) == (Single(g.media.tickCount - newest), newest)
  {
    NothingNewIsRepeated(Newest(g.media.clock, g.media.tickCount, now), g.media.tickCount, CursorAt(g, id, now));
  }

  /**
   The same from the render that registers a listener, for the first time or after its removal: from
   the tick heard there on, every tick is heard once, in order, or counted.
   */
  lemma HeardOrCountedSinceJoining(g: Graph, now: int, audible: set<Id>, events: seq<Event>, id: Id)
    requires WellFormed(g) && id !in g.cursors && Stays(events, id)
    ensures var m, g0 := Advanced(g, now).media, Apply(g, Render(id, now, audible));
            var newest := Newest(m.clock, m.tickCount, now);
            && id in g0.cursors && id in Run(g0, events).cursors
            && var last, heard := Run(g0, events).cursors[id], HeardJoining(m, now) + HeardIn(g0, events, id);
            && newest <= last <= Run(g0, events).media.tickCount
            && IncreasingIn(heard, newest - 1, last)
            && |heard| + SkippedIn(g0, events, id) == last - newest + |HeardJoining(m, now)|
  {
    var g0 := Apply(g, Render(id, now, audible));
    JoiningHearsTheNewest(Advanced(g, now), id, now);
    HeardOrCounted(g0, events, id);
  }

  /** As many strictly increasing ticks in `(lo, hi]` as there are integers: all of them. */
  lemma {:induction false} FullRange(ticks: seq<int>, lo: int, hi: int)
    requires IncreasingIn(ticks, lo, hi) && |ticks| == hi - lo
    ensures forall i | 0 <= i < |ticks| :: ticks[i] == lo + 1 + i
  {
    if ticks != [] {
      var n := |ticks| - 1;
      AtLeast(ticks, lo, hi, n);
      FullRange(ticks[..n], lo, hi - 1);
    }
  }

  lemma {:induction false} AtLeast(ticks: seq<int>, lo: int, hi: int, i: nat)
    requires IncreasingIn(ticks, lo, hi) && i < |ticks|
    ensures ticks[i] >= lo + 1 + i
  {
    if i > 0 {
      AtLeast(ticks, lo, hi, i - 1);
    }
  }

  /** A listener that skipped nothing heard every tick it passed. */
  lemma NothingSkippedAllHeard(g: Graph, events: seq<Event>, id: Id)
    requires WellFormed(g) && id in g.cursors && Stays(events, id)
    requires SkippedIn(g, events, id) == 0
    ensures var heard := HeardIn(g, events, id);
            && id in Run(g, events).cursors
            && Run(g, events).cursors[id] == g.cursors[id] + |heard|
            && forall i | 0 <= i < |heard| :: heard[i] == g.cursors[id] + 1 + i
  {
    HeardOrCounted(g, events, id);
    FullRange(HeardIn(g, events, id), g.cursors[id], Run(g, events).cursors[id]);
  }

  // ----- the ticks that were not heard

  /** The ticks in `(lo, hi]` that are not among `ticks`. */
  function Missed(ticks: seq<int>, lo: int, hi: int): seq<int>
    decreases hi - lo
  {
    if hi <= lo then []
    else if ticks != [] && ticks[|ticks| - 1] == hi then Missed(ticks[..|ticks| - 1], lo, hi - 1)
    else Missed(ticks, lo, hi - 1) + [hi]
  }

  lemma NoMoreThanRange(ticks: seq<int>, lo: int, hi: int)
    requires IncreasingIn(ticks, lo, hi)
    ensures |ticks| <= Max(0, hi - lo)
  {
    if ticks != [] {
      AtLeast(ticks, lo, hi, |ticks| - 1);
    }
  }

  lemma BeforeLast(ticks: seq<int>, lo: int, hi: int)
    requires IncreasingIn(ticks, lo, hi) && ticks != [] && ticks[|ticks| - 1] == hi
    ensures IncreasingIn(ticks[..|ticks| - 1], lo, hi - 1) && ticks == ticks[..|ticks| - 1] + [hi]
  {
  }

  lemma NotAtEnd(ticks: seq<int>, lo: int, hi: int)
    requires IncreasingIn(ticks, lo, hi) && (ticks == [] || ticks[|ticks| - 1] != hi)
    ensures IncreasingIn(ticks, lo, hi - 1) && hi !in ticks
  {
  }

  /** Heard and missed ticks together are as many as there are. */
  lemma {:induction false} HeardAndMissed(ticks: seq<int>, lo: int, hi: int)
    requires IncreasingIn(ticks, lo, hi) && lo <= hi
    ensures |ticks| + |Missed(ticks, lo, hi)| == hi - lo
    decreases hi - lo
  {
    if lo == hi {
      NoMoreThanRange(ticks, lo, hi);
    } else if ticks != [] && ticks[|ticks| - 1] == hi {
      BeforeLast(ticks, lo, hi);
      HeardAndMissed(ticks[..|ticks| - 1], lo, hi - 1);
    } else {
      NotAtEnd(ticks, lo, hi);
      HeardAndMissed(ticks, lo, hi - 1);
    }
  }

  /** A tick in the range is missed exactly when it is not heard. */
  lemma {:induction false} MissedIsNotHeard(ticks: seq<int>, lo: int, hi: int, t: int)
    requires IncreasingIn(ticks, lo, hi) && lo < t <= hi
    ensures t in Missed(ticks, lo, hi) <==> t !in ticks
    decreases hi - lo
  {
    if ticks != [] && ticks[|ticks| - 1] == hi {
      BeforeLast(ticks, lo, hi);
      MissedAreBelow(ticks[..|ticks| - 1], lo, hi - 1, hi);
      if t < hi {
        MissedIsNotHeard(ticks[..|ticks| - 1], lo, hi - 1, t);
      }
    } else {
      NotAtEnd(ticks, lo, hi);
      if t < hi {
        MissedIsNotHeard(ticks, lo, hi - 1, t);
      }
    }
  }

  lemma {:induction false} MissedAreBelow(ticks: seq<int>, lo: int, hi: int, t: int)
    requires hi < t
    ensures t !in Missed(ticks, lo, hi)
    decreases hi - lo
  {
    if lo < hi {
      if ticks != [] && ticks[|ticks| - 1] == hi {
        MissedAreBelow(ticks[..|ticks| - 1], lo, hi - 1, t);
      } else {
        MissedAreBelow(ticks, lo, hi - 1, t);
      }
    }
  }

  // ----- the sources' counters

  /** The ticks that renders which heard `source` merged and skipped, over a run. */
  function CreditedIn(g: Graph, events: seq<Event>, source: Id): (nat, nat)
    requires WellFormed(g)
    decreases events
  {
    if events == [] then (0, 0)
    else
      var (merged, skipped) := CreditedIn(Apply(g, events[0]), events[1..], source);
      (CreditedAt(g, events[0], source).0 + merged, CreditedAt(g, events[0], source).1 + skipped)
  }

  lemma {:induction false} TicksKeepCounters(s: Slot, n: nat)
    ensures TickSlotTimes(s, n).catchupCompressed == s.catchupCompressed && TickSlotTimes(s, n).skipped == s.skipped
  {
    if n > 0 {
      TicksKeepCounters(s, n - 1);
      assert TickSlotTimes(s, n) == TickSlot(TickSlotTimes(s, n - 1));
    }
  }

  /** The credit of one event. */
  function CreditedAt(g: Graph, e: Event, source: Id): (nat, nat)
    requires WellFormed(g)
  {
    if e.Render? && source in e.audible then
      var step := StepAt(Advanced(g, e.now), e.id, e.now).0;
      (MergedTicks(step), SkippedTicks(step))
    else (0, 0)
  }

  lemma EventCredits(g: Graph, e: Event, source: Id)
    requires WellFormed(g) && source in g.media.inputs && e != RemoveInput(source)
    ensures source in Apply(g, e).media.inputs
    ensures var s, s' := g.media.inputs[source], Apply(g, e).media.inputs[source];
            var (merged, skipped) := CreditedAt(g, e, source);
            s'.catchupCompressed == s.catchupCompressed + merged && s'.skipped == s.skipped + skipped
  {
    if e.Render? && g.media.clock.Some? {
      TicksKeepCounters(g.media.inputs[source], TicksToRun(g.media.clock.value, e.now));
    }
  }

  /** Over any run a source's two counters count exactly what listeners that heard it merged and skipped. */
  lemma {:induction false} NeverMergedOrSkippedUncounted(g: Graph, events: seq<Event>, source: Id)
    requires WellFormed(g) && source in g.media.inputs && Stays(events, source)
    ensures source in Run(g, events).media.inputs
    ensures var s, s' := g.media.inputs[source], Run(g, events).media.inputs[source];
            var (merged, skipped) := CreditedIn(g, events, source);
            s'.catchupCompressed == s.catchupCompressed + merged && s'.skipped == s.skipped + skipped
    decreases events
  {
    if events != [] {
      assert events[0] in events;
      EventCredits(g, events[0], source);
      NeverMergedOrSkippedUncounted(Apply(g, events[0]), events[1..], source);
    }
  }

  // ----- from a run of the graph to the renders of one listener

  /** What a render of one listener sees of the graph, after its own advance. */
  datatype View = View(clock: Option<int>, tickCount: nat, now: int)

  function ViewNewest(v: View): (n: nat)
    ensures n <= v.tickCount
  {
    Newest(v.clock, v.tickCount, v.now)
  }

  function ViewAfter(m: Media, now: int): View {
    View(m.clock, m.tickCount, now)
  }

  /** What each render of listener `id` in a run sees. */
  function ViewsIn(g: Graph, events: seq<Event>, id: Id): seq<View>
    requires WellFormed(g)
    decreases events
  {
    if events == [] then []
    else (if StepOf(g, events[0], id).Some? then [ViewAfter(Advanced(g, events[0].now).media, events[0].now)] else [])
         + ViewsIn(Apply(g, events[0]), events[1..], id)
  }

  /** The steps of listener `id` in a run, with its position after each. */
  function StepsIn(g: Graph, events: seq<Event>, id: Id): seq<(ListenerStep, nat)>
    requires WellFormed(g)
    decreases events
  {
    if events == [] then []
    else (if StepOf(g, events[0], id).Some? then [StepOf(g, events[0], id).value] else [])
         + StepsIn(Apply(g, events[0]), events[1..], id)
  }

  /** The views of a listener's renders determine its steps: each is the step from where the one before left it. */
  ghost predicate StepsFollow(steps: seq<(ListenerStep, nat)>, views: seq<View>, cursor: nat) {
    |steps| == |views| && forall k | 0 <= k < |steps| :: FollowsAt(steps, views, cursor, k)
  }

  ghost predicate FollowsAt(steps: seq<(ListenerStep, nat)>, views: seq<View>, cursor: nat, k: nat)
    requires k < |steps| == |views|
  {
    var start := if k == 0 then cursor else steps[k - 1].1;
    start <= views[k].tickCount && steps[k] == NextStep(ViewNewest(views[k]), views[k].tickCount, start)
  }

  lemma {:induction false} ViewsDescribeRun(g: Graph, events: seq<Event>, id: Id)
    requires WellFormed(g) && id in g.cursors && Stays(events, id)
    ensures StepsFollow(StepsIn(g, events, id), ViewsIn(g, events, id), g.cursors[id])
    decreases events
  {
    if events != [] {
      assert events[0] in events;
      var g' := Apply(g, events[0]);
      EventAccounts(g, events[0], id);
      ViewsDescribeRun(g', events[1..], id);
      if StepOf(g, events[0], id).Some? {
        var view := ViewAfter(Advanced(g, events[0].now).media, events[0].now);
        FollowOneMore(StepOf(g, events[0], id).value, view, StepsIn(g', events[1..], id), ViewsIn(g', events[1..], id),
                      g.cursors[id]);
      } else {
        assert StepsIn(g, events, id) == StepsIn(g', events[1..], id);
        assert ViewsIn(g, events, id) == ViewsIn(g', events[1..], id);
      }
    }
  }

  lemma FollowOneMore(
      step: (ListenerStep, nat), view: View, steps: seq<(ListenerStep, nat)>, views: seq<View>, cursor: nat)
    requires cursor <= view.tickCount && step == NextStep(ViewNewest(view), view.tickCount, cursor)
    requires StepsFollow(steps, views, step.1)
    ensures StepsFollow([step] + steps, [view] + views, cursor)
  {
    forall k | 0 <= k < |steps| + 1 ensures FollowsAt([step] + steps, [view] + views, cursor, k) {
      if k > 0 {
        assert FollowsAt(steps, views, step.1, k - 1);
      }
    }
  }

  // ----- a clock that is not resynced

  /** Seen from a clock that has never been resynced since tick 0 was due at `base`. */
  predicate OnBase(v: View, base: int) {
    v.clock.Some? && v.clock.value - v.tickCount * TICK_US == base && v.now < v.clock.value + TICK_US
  }

  ghost predicate AllOnBase(views: seq<View>, base: int) {
    forall i | 0 <= i < |views| :: OnBase(views[i], base)
  }

  /** On such a clock the newest tick a render may hear is a matter of the render's time alone. */
  lemma NewestOnBase(v: View, base: int)
    requires OnBase(v, base)
    ensures ViewNewest(v) == Max(0, (v.now - base) / TICK_US)
  {
  }

  /** Without a resync every render of a run sees the same base. */
  lemma {:induction false} ViewsStayOnBase(g: Graph, events: seq<Event>, id: Id, base: int)
    requires WellFormed(g) && g.media.clock.Some? && ResyncCount(g.media, RenderTimes(events)) == 0
    requires g.media.clock.value - g.media.tickCount * TICK_US == base
    ensures AllOnBase(ViewsIn(g, events, id), base)
    decreases events
  {
    if events != [] {
      var g' := Apply(g, events[0]);
      var times := RenderTimes(events);
      if events[0].Render? {
        assert times[0] == events[0].now && times[1..] == RenderTimes(events[1..]);
        ResyncsIgnoreInputs(Advance(g.media, times[0]), g'.media, times[1..]);
      } else {
        assert times == RenderTimes(events[1..]);
        ResyncsIgnoreInputs(g.media, g'.media, times);
      }
      ViewsStayOnBase(g', events[1..], id, base);
    }
  }

  /** The sources have no influence on the clock. */
  lemma {:induction false} ResyncsIgnoreInputs(m: Media, m': Media, times: seq<int>)
    requires m.clock == m'.clock
    ensures ResyncCount(m, times) == ResyncCount(m', times)
    decreases times
  {
    if times != [] {
      ResyncsIgnoreInputs(Advance(m, times[0]), Advance(m', times[0]), times[1..]);
    }
  }

  // ----- slot by slot

  /**
   Renders of consecutive slots, 20 ms apart by their own times, whenever they are carried out, the first
   of them right after the tick `cursor`, and none so late that its tick is gone.
   */
  ghost predicate SlotBySlot(views: seq<View>, cursor: nat) {
    && (forall i | 0 <= i < |views| :: views[i].now == views[0].now + i * TICK_US)
    && (forall i | 0 <= i < |views| :: Behind(views[i].clock, views[i].now) < HISTORY_TICKS)
    && (views != [] ==> ViewNewest(views[0]) == cursor + 1)
  }

  lemma SlotsNewest(views: seq<View>, base: int, cursor: nat, k: nat)
    requires AllOnBase(views, base) && SlotBySlot(views, cursor) && k < |views|
    ensures ViewNewest(views[k]) == cursor + 1 + k
    ensures OldestHeld(views[k].tickCount) <= ViewNewest(views[k])
  {
    NewestOnBase(views[0], base);
    NewestOnBase(views[k], base);
    assert views[k].now == views[0].now + k * TICK_US;
  }

  /** A render that hears just the tick `tick`, its own newest, and leaves the listener there. */
  predicate HearsOwnTick(step: (ListenerStep, nat), view: View, tick: nat) {
    ViewNewest(view) == tick && step == (Single(view.tickCount - tick), tick)
  }

  /** The k-th render hears just the tick `cursor + 1 + k`. */
  ghost predicate EachHearsOwnTick(steps: seq<(ListenerStep, nat)>, views: seq<View>, cursor: nat) {
    |steps| == |views| && forall k | 0 <= k < |steps| :: HearsOwnTick(steps[k], views[k], cursor + 1 + k)
  }

  lemma {:induction false} SlotHearsOwnTick(
      steps: seq<(ListenerStep, nat)>, views: seq<View>, base: int, cursor: nat, k: nat)
    requires StepsFollow(steps, views, cursor) && k < |steps|
    requires AllOnBase(views, base) && SlotBySlot(views, cursor)
    ensures HearsOwnTick(steps[k], views[k], cursor + 1 + k)
  {
    SlotsNewest(views, base, cursor, k);
    assert FollowsAt(steps, views, cursor, k);
    if k > 0 {
      SlotHearsOwnTick(steps, views, base, cursor, k - 1);
    }
  }

  /**
   Slot by slot, on time or in a burst after a stall, a listener that had heard the tick before its
   first slot hears exactly one new tick per render, that of the slot, as long as it is still held.
   */
  lemma SlotsHearTheirOwnTick(steps: seq<(ListenerStep, nat)>, views: seq<View>, base: int, cursor: nat)
    requires StepsFollow(steps, views, cursor) && AllOnBase(views, base) && SlotBySlot(views, cursor)
    ensures EachHearsOwnTick(steps, views, cursor)
  {
    forall k | 0 <= k < |steps| ensures HearsOwnTick(steps[k], views[k], cursor + 1 + k) {
      SlotHearsOwnTick(steps, views, base, cursor, k);
    }
  }

  /**
   The same in any run of the graph without a resync, among any other events, by the times of the listener's
   own renders and how far others have moved the clock beyond them.
   */
  lemma SlotsHearTheirOwnTickInRun(g: Graph, events: seq<Event>, id: Id)
    requires WellFormed(g) && id in g.cursors && Stays(events, id)
    requires g.media.clock.Some? && ResyncCount(g.media, RenderTimes(events)) == 0
    requires SlotBySlot(ViewsIn(g, events, id), g.cursors[id])
    ensures EachHearsOwnTick(StepsIn(g, events, id), ViewsIn(g, events, id), g.cursors[id])
  {
    var base := g.media.clock.value - g.media.tickCount * TICK_US;
    ViewsDescribeRun(g, events, id);
    ViewsStayOnBase(g, events, id, base);
    SlotsHearTheirOwnTick(StepsIn(g, events, id), ViewsIn(g, events, id), base, g.cursors[id]);
  }

  /** A removed listener has no position: when it renders again it starts anew, at the newest tick. */
  lemma RemovalForgetsPosition(g: Graph, id: Id, now: int)
    requires WellFormed(g)
    ensures var g', a := Apply(g, RemoveInput(id)), Advanced(Apply(g, RemoveInput(id)), now);
            && id !in g'.cursors && id !in g'.media.inputs
            && (forall x | x != id :: x in g'.cursors <==> x in g.cursors)
            && (forall x | x != id && x in g.cursors :: g'.cursors[x] == g.cursors[x])
            && StepAt(a, id, now).1 == Newest(a.media.clock, a.media.tickCount, now)
  {
  }

  /** The counters of a source are zero when it is registered, by `AddInput` or by its first push. */
  lemma CountersStartAtZero(g: Graph, e: Event, source: Id)
    requires WellFormed(g) && source !in g.media.inputs
    requires e == AddInput(source) || (e.PushFrame? && e.id == source)
    ensures source in Apply(g, e).media.inputs
    ensures var s := Apply(g, e).media.inputs[source];
            s.catchupCompressed == 0 && s.skipped == 0 && s.history == []
  {
  }

  // ----- catching up

  /** Renders at or after the clock, each one tick after the previous one. */
  ghost predicate OnSchedule(views: seq<View>) {
    && (forall i | 0 <= i < |views| :: Behind(views[i].clock, views[i].now) == 0)
    && (forall i | 0 <= i < |views| - 1 :: views[i + 1].tickCount == views[i].tickCount + 1)
  }

  lemma {:induction false} ViewAt(views: seq<View>, k: nat)
    requires k < |views| && OnSchedule(views)
    ensures views[k].tickCount == views[0].tickCount + k
    ensures ViewNewest(views[k]) == views[k].tickCount
  {
    if k > 0 {
      ViewAt(views, k - 1);
    }
  }

  /** The k-th render of a listener at `cursor` that was `late` ticks behind at its first one. */
  predicate CatchesUp(step: (ListenerStep, nat), view: View, cursor: nat, late: int, k: nat) {
    if k < late - 1 then step == (Merge(late - k - 1, late - k - 2), cursor + 2 * (k + 1))
    else step == (Single(0), view.tickCount)
  }

  ghost predicate EachCatchesUp(steps: seq<(ListenerStep, nat)>, views: seq<View>, cursor: nat) {
    |steps| == |views| && forall k | 0 <= k < |steps| ::
      CatchesUp(steps[k], views[k], cursor, views[0].tickCount - cursor, k)
  }

  lemma {:induction false} RenderCatchesUp(steps: seq<(ListenerStep, nat)>, views: seq<View>, cursor: nat, k: nat)
    requires StepsFollow(steps, views, cursor) && k < |steps| && OnSchedule(views)
    requires 2 <= views[0].tickCount - cursor <= MAX_CATCHUP_TICKS
    ensures CatchesUp(steps[k], views[k], cursor, views[0].tickCount - cursor, k)
  {
    ViewAt(views, k);
    assert FollowsAt(steps, views, cursor, k);
    if k > 0 {
      RenderCatchesUp(steps, views, cursor, k - 1);
    }
  }

  /** `late` is 2 to 8 ticks at the first render, if there is one. */
  predicate StartsLate(views: seq<View>, cursor: nat) {
    views != [] ==> 2 <= views[0].tickCount - cursor <= MAX_CATCHUP_TICKS
  }

  /**
   Late listeners recover: one that is `late` (2 to 8) ticks behind at its first render and is then
   on schedule merges two ticks in each of `late - 1` renders, skips nothing, and from then on
   every render hears exactly the next, newest tick.
   */
  lemma LateListenerRecovers(steps: seq<(ListenerStep, nat)>, views: seq<View>, cursor: nat)
    requires StepsFollow(steps, views, cursor) && OnSchedule(views) && StartsLate(views, cursor)
    ensures EachCatchesUp(steps, views, cursor)
  {
    forall k | 0 <= k < |steps| ensures CatchesUp(steps[k], views[k], cursor, views[0].tickCount - cursor, k) {
      RenderCatchesUp(steps, views, cursor, k);
    }
  }

  /**
   The recovery of a late listener in any run of the graph, whatever sources and other listeners do
   between its renders, as long as those are on schedule.
   */
  lemma LateListenerRecoversInRun(g: Graph, events: seq<Event>, id: Id)
    requires WellFormed(g) && id in g.cursors && Stays(events, id)
    requires OnSchedule(ViewsIn(g, events, id)) && StartsLate(ViewsIn(g, events, id), g.cursors[id])
    ensures EachCatchesUp(StepsIn(g, events, id), ViewsIn(g, events, id), g.cursors[id])
  {
    ViewsDescribeRun(g, events, id);
    LateListenerRecovers(StepsIn(g, events, id), ViewsIn(g, events, id), g.cursors[id]);
  }

  /** Renders at or after the clock, 20 ms apart by their own times. */
  ghost predicate OnTime(views: seq<View>) {
    && (forall i | 0 <= i < |views| :: Behind(views[i].clock, views[i].now) == 0)
    && (forall i | 0 <= i < |views| :: views[i].now == views[0].now + i * TICK_US)
  }

  /** On a clock that is not resynced such renders are on schedule. */
  lemma OnTimeIsOnSchedule(views: seq<View>, base: int)
    requires AllOnBase(views, base) && OnTime(views) && (views != [] ==> views[0].tickCount > 0)
    ensures OnSchedule(views)
  {
    forall i | 0 <= i < |views| - 1 ensures views[i + 1].tickCount == views[i].tickCount + 1 {
      NewestOnBase(views[0], base);
      NewestOnBase(views[i], base);
      NewestOnBase(views[i + 1], base);
      assert views[i].now == views[0].now + i * TICK_US && views[i + 1].now == views[0].now + (i + 1) * TICK_US;
    }
  }

  /** So without a resync it is enough that the listener's renders are 20 ms apart and not before the clock. */
  lemma OnTimeListenerRecoversInRun(g: Graph, events: seq<Event>, id: Id)
    requires WellFormed(g) && id in g.cursors && Stays(events, id)
    requires g.media.clock.Some? && ResyncCount(g.media, RenderTimes(events)) == 0
    requires OnTime(ViewsIn(g, events, id)) && StartsLate(ViewsIn(g, events, id), g.cursors[id])
    ensures EachCatchesUp(StepsIn(g, events, id), ViewsIn(g, events, id), g.cursors[id])
  {
    var base := g.media.clock.value - g.media.tickCount * TICK_US;
    ViewsStayOnBase(g, events, id, base);
    OnTimeIsOnSchedule(ViewsIn(g, events, id), base);
    LateListenerRecoversInRun(g, events, id);
  }
}
