/**
 The shared media clock: how often it is advanced does not matter, and how far it can be from the
 ticks it has processed.
 */
module MediaClock {
  import opened Wrappers
  import opened Frames
  import opened MixModel
  import opened Sequences

  lemma TickAllAdds(inputs: map<Id, Slot>, a: nat, b: nat)
    ensures TickAll(TickAll(inputs, a), b) == TickAll(inputs, a + b)
  {
    forall id | id in inputs ensures TickAll(TickAll(inputs, a), b)[id] == TickAll(inputs, a + b)[id] {
      IterateAdds(TickSlot, inputs[id], a, b);
    }
  }

  /** The ticks of an advance can be run in two parts. */
  lemma SplitTicks(c: int, t1: int, t2: int)
    requires t1 <= t2 && Elapsed(c, t2) <= MAX_CATCHUP_TICKS
    ensures var c1 := ClockAfter(c, t1);
            && Elapsed(c1, t2) <= MAX_CATCHUP_TICKS
            && TicksToRun(c, t2) == TicksToRun(c, t1) + TicksToRun(c1, t2)
            && ClockAfter(c1, t2) == ClockAfter(c, t2)
  {
  }

  /** An intermediate advance does not change what a later advance of at most 8 ticks ends in. */
  lemma IntermediateAdvance(m: Media, t1: int, t2: int)
    requires m.clock.Some? && t1 <= t2 && Elapsed(m.clock.value, t2) <= MAX_CATCHUP_TICKS
    ensures var m1 := Advance(m, t1);
            && m1.clock.Some? && Elapsed(m1.clock.value, t2) <= MAX_CATCHUP_TICKS
            && Advance(m1, t2) == Advance(m, t2)
  {
    var c := m.clock.value;
    var c1 := ClockAfter(c, t1);
    SplitTicks(c, t1, t2);
    AdvanceByTwice(m, TicksToRun(c, t1), c1, TicksToRun(c1, t2), TicksToRun(c, t2), ClockAfter(c, t2));
  }

  lemma AdvanceByTwice(m: Media, run1: nat, clock1: int, run2: nat, all: nat, clock2: int)
    requires all == run1 + run2
    ensures AdvanceBy(AdvanceBy(m, run1, clock1), run2, clock2) == AdvanceBy(m, all, clock2)
  {
    TickAllAdds(m.inputs, run1, run2);
  }

  function AdvanceAll(m: Media, times: seq<int>): Media
    decreases times
  {
    if times == [] then m else AdvanceAll(Advance(m, times[0]), times[1..])
  }

  /**
   Splitting an advance of at most 8 ticks into any intermediate advances, in any order, ends in
   the same clock, tick count, queues and histories: listeners sharing a tick never pop extra frames.
   */
  lemma {:induction false} AdvancesCompose(m: Media, times: seq<int>, last: int)
    requires m.clock.Some? && Elapsed(m.clock.value, last) <= MAX_CATCHUP_TICKS
    requires forall i | 0 <= i < |times| :: times[i] <= last
    ensures Advance(AdvanceAll(m, times), last) == Advance(m, last)
    decreases times
  {
    if times != [] {
      IntermediateAdvance(m, times[0], last);
      AdvancesCompose(Advance(m, times[0]), times[1..], last);
    }
  }

  /** The advance at `now` gives up catching up and restarts the clock there. */
  predicate Resyncs(m: Media, now: int) {
    m.clock.Some? && Elapsed(m.clock.value, now) > MAX_CATCHUP_TICKS
  }

  function ResyncCount(m: Media, times: seq<int>): nat
    decreases times
  {
    if times == [] then 0
    else (if Resyncs(m, times[0]) then 1 else 0) + ResyncCount(Advance(m, times[0]), times[1..])
  }

  /** Time the clock has moved beyond the ticks it processed. */
  function Drift(m: Media, first: int): int
    requires m.clock.Some?
  {
    m.clock.value - first - m.tickCount * TICK_US
  }

  /** The time an advance gives up: a resync to `now` plays one tick for all that has elapsed. */
  function GivenUp(m: Media, now: int): int {
    if Resyncs(m, now) then now - m.clock.value - TICK_US else 0
  }

  function GivenUpIn(m: Media, times: seq<int>): int
    decreases times
  {
    if times == [] then 0 else GivenUp(m, times[0]) + GivenUpIn(Advance(m, times[0]), times[1..])
  }

  /**
   How many ticks an advance plays, by the times alone: every whole tick since the clock, at most 8; if more
   have elapsed, exactly one.
   */
  lemma TicksOfAdvance(m: Media, now: int)
    requires m.clock.Some?
    ensures var c, m' := m.clock.value, Advance(m, now);
            if now - c >= 9 * TICK_US
            then m'.tickCount == m.tickCount + 1 && m'.clock == Some(now)
            else
              && m'.tickCount == m.tickCount + Max(0, now - c) / TICK_US
              && m'.clock == Some(c + (m'.tickCount - m.tickCount) * TICK_US)
  {
  }

  lemma {:induction false} ClockDrifts(m: Media, first: int, times: seq<int>)
    requires m.clock.Some?
    ensures var m' := AdvanceAll(m, times);
            && m'.clock.Some?
            && Drift(m', first) == Drift(m, first) + GivenUpIn(m, times)
            && GivenUpIn(m, times) >= 0 && (GivenUpIn(m, times) == 0 <==> ResyncCount(m, times) == 0)
    decreases times
  {
    if times != [] {
      ClockDrifts(Advance(m, times[0]), first, times[1..]);
    }
  }

  /**
   Over any advances of a clock started at `first`, the processed ticks account for the time the clock
   moved, except exactly the time given up at resyncs: for all of it when no advance resynced.
   */
  lemma TicksMatchClock(first: int, inputs: map<Id, Slot>, times: seq<int>)
    ensures var start := Media(Some(first), 0, inputs);
            var m := AdvanceAll(start, times);
            && m.clock.Some?
            && m.clock.value - first - m.tickCount * TICK_US == GivenUpIn(start, times)
            && m.tickCount * TICK_US <= m.clock.value - first
            && (m.tickCount * TICK_US == m.clock.value - first <==> ResyncCount(start, times) == 0)
  {
    ClockDrifts(Media(Some(first), 0, inputs), first, times);
  }

  function RenderTimes(events: seq<Event>): seq<int> {
    if events == [] then []
    else (if events[0].Render? then [events[0].now] else []) + RenderTimes(events[1..])
  }

  /** In a run of the whole graph the clock is moved by the renders alone, through their times. */
  lemma {:induction false} RendersMoveTheClock(g: Graph, events: seq<Event>, m: Media)
    requires WellFormed(g) && g.media.clock.Some?
    requires m.clock == g.media.clock && m.tickCount == g.media.tickCount
    ensures var g', m' := Run(g, events), AdvanceAll(m, RenderTimes(events));
            g'.media.clock == m'.clock && g'.media.tickCount == m'.tickCount
    decreases events
  {
    if events != [] {
      if events[0].Render? {
        var times := RenderTimes(events);
        assert times[0] == events[0].now && times[1..] == RenderTimes(events[1..]);
        RendersMoveTheClock(Apply(g, events[0]), events[1..], Advance(m, events[0].now));
      } else {
        assert RenderTimes(events) == RenderTimes(events[1..]);
        RendersMoveTheClock(Apply(g, events[0]), events[1..], m);
      }
    }
  }

  /** The time of the first push or render. */
  function FirstTime(events: seq<Event>): Option<int> {
    if events == [] then None
    else if events[0].PushFrame? || events[0].Render? then Some(events[0].now)
    else FirstTime(events[1..])
  }

  lemma AdvanceToItself(m: Media)
    requires m.clock.Some?
    ensures Advance(m, m.clock.value) == m
  {
    assert Elapsed(m.clock.value, m.clock.value) == 0;
    assert TickAll(m.inputs, 0) == m.inputs;
  }

  lemma ClockFromHere(g: Graph, events: seq<Event>)
    requires WellFormed(g) && g.media.clock.None? && g.media.tickCount == 0
    requires events != [] && (events[0].PushFrame? || events[0].Render?)
    ensures var m, m' := Run(g, events).media, AdvanceAll(Media(Some(events[0].now), 0, map[]), RenderTimes(events));
            m.clock == m'.clock && m.tickCount == m'.tickCount
  {
    var m := Media(Some(events[0].now), 0, map[]);
    RendersMoveTheClock(Apply(g, events[0]), events[1..], m);
    if events[0].Render? {
      var times := RenderTimes(events);
      assert times[0] == events[0].now && times[1..] == RenderTimes(events[1..]);
      AdvanceToItself(m);
    } else {
      assert RenderTimes(events) == RenderTimes(events[1..]);
    }
  }

  /** The clock starts with the first push or render, whichever comes first, and moves with the renders. */
  lemma {:induction false} ClockFromFirstTime(g: Graph, events: seq<Event>)
    requires WellFormed(g) && g.media.clock.None? && g.media.tickCount == 0
    ensures var m, m' := Run(g, events).media, AdvanceAll(Media(FirstTime(events), 0, map[]), RenderTimes(events));
            m.clock == m'.clock && m.tickCount == m'.tickCount
    decreases events
  {
    if events != [] {
      if events[0].PushFrame? || events[0].Render? {
        ClockFromHere(g, events);
      } else {
        assert RenderTimes(events) == RenderTimes(events[1..]);
        ClockFromFirstTime(Apply(g, events[0]), events[1..]);
      }
    }
  }

  /** After an advance at or after the clock, the clock is less than one tick before `now`. */
  lemma AdvanceReachesNow(m: Media, now: int)
    requires m.clock.Some? ==> m.clock.value <= now
    ensures var m' := Advance(m, now);
            m'.clock.Some? && 0 <= now - m'.clock.value < TICK_US
  {
  }
}
