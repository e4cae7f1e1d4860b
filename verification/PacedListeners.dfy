/**
 A listener whose renders are paced: what becomes of the slots that a call of the pacer skips.
 */
module PacedListeners {
  import opened Wrappers
  import opened Frames
  import opened Listeners
  import opened MixModel
  import Pacer

  /** The slot that has last been rendered or skipped lies in the tick `cursor`, which its listener is at. */
  predicate InTick(p: Pacer.State, base: int, cursor: nat) {
    cursor * TICK_US <= Pacer.SlotAt(p, p.written) - base < (cursor + 1) * TICK_US
  }

  /** The first slot rendered after skipped ones may hear the tick after those of the skipped slots. */
  lemma FirstSlotTick(p: Pacer.State, now: int, base: int, cursor: nat, clock: int, tickCount: nat)
    requires Pacer.DueSlots(p, now).2 > 0 && InTick(p, base, cursor)
    requires OnBase(View(Some(clock), tickCount, Pacer.SlotAt(p, p.written + Pacer.DueSlots(p, now).2 + 1)), base)
    ensures var (_, at, skipped) := Pacer.DueSlots(p, now);
            && at != [] && at[0] == Pacer.SlotAt(p, p.written + skipped + 1)
            && Newest(Some(clock), tickCount, at[0]) == cursor + skipped + 1
  {
    var (_, at, skipped) := Pacer.DueSlots(p, now);
    var slot := Pacer.SlotAt(p, p.written + skipped + 1);
    Pacer.CallAccounts(p, now);
    assert slot == Pacer.SlotAt(p, p.written) + (skipped + 1) * TICK_US;
    NewestOnBase(View(Some(clock), tickCount, slot), base);
  }

  /** How a listener at `cursor` steps to a tick `skipped + 1` further on. */
  lemma CountedWhen(tickCount: nat, cursor: nat, skipped: nat)
    requires 0 < skipped && cursor + skipped + 1 <= tickCount
    ensures var newest := cursor + skipped + 1;
            var step := NextStep(newest, tickCount, cursor).0;
            && (SkippedTicks(step) == skipped
                <==> if cursor + 1 < OldestHeld(tickCount)
                     then newest == OldestHeld(tickCount) || newest >= OldestHeld(tickCount) + MAX_CATCHUP_TICKS
                     else skipped >= MAX_CATCHUP_TICKS)
            && (step.Merge? <==> OldestHeld(tickCount) <= cursor + 1 && skipped < MAX_CATCHUP_TICKS)
  {
  }

  /**
   While other listeners keep the clock going, so that by the call it has processed all due ticks: the first
   slot rendered counts exactly the skipped slots as skipped ticks if at least 12 slots were due.  If
   fewer were, it merges instead, and the ticks of the skipped slots are all still held.
   */
  lemma SkippedSlotsAreCounted(p: Pacer.State, now: int, base: int, cursor: nat, clock: int)
    requires Pacer.DueSlots(p, now).2 > 0 && InTick(p, base, cursor)
    requires var due := Pacer.DueSlots(p, now).2 + Pacer.MAX_BURST_WRITES;
             clock - (cursor + due) * TICK_US == base
    ensures var (_, at, skipped) := Pacer.DueSlots(p, now);
            var due := skipped + Pacer.MAX_BURST_WRITES;
            && at != []
            && var newest := Newest(Some(clock), cursor + due, at[0]);
            && newest == cursor + skipped + 1
            && var step := NextStep(newest, cursor + due, cursor).0;
            && (SkippedTicks(step) == skipped <==> due >= 12)
            && (step.Merge? <==> due < 12)
            && OldestHeld(cursor + due) <= cursor + skipped
  {
    var skipped := Pacer.DueSlots(p, now).2;
    var due := skipped + Pacer.MAX_BURST_WRITES;
    assert Pacer.SlotAt(p, p.written + skipped + 1) == Pacer.SlotAt(p, p.written) + (skipped + 1) * TICK_US;
    FirstSlotTick(p, now, base, cursor, clock, cursor + due);
    CountedWhen(cursor + due, cursor, skipped);
  }

  /**
   With nobody else rendering the clock stands at the last slot, and none of the skipped slots is ever
   counted: the first slot rendered merges, or after more than 8 ticks resyncs the clock and hears one new
   tick, the only one that is played.
   */
  lemma AloneNothingIsCounted(p: Pacer.State, now: int, m: Media)
    requires Pacer.DueSlots(p, now).2 > 0 && m.clock == Some(Pacer.SlotAt(p, p.written))
    ensures var (_, at, skipped) := Pacer.DueSlots(p, now);
            && at != []
            && var m' := Advance(m, at[0]);
            && var newest := Newest(m'.clock, m'.tickCount, at[0]);
            && newest == m'.tickCount
            && var step := NextStep(newest, m'.tickCount, m.tickCount).0;
            && SkippedTicks(step) == 0
            && step == (if skipped < MAX_CATCHUP_TICKS then Merge(skipped, skipped - 1) else Single(0))
            && (skipped >= MAX_CATCHUP_TICKS ==>
                  NewlyHeard(step, m'.tickCount, m.tickCount) == [m.tickCount + 1] == [m'.tickCount])
  {
    var (_, at, skipped) := Pacer.DueSlots(p, now);
    Pacer.CallAccounts(p, now);
    assert at[0] == Pacer.SlotAt(p, p.written) + (skipped + 1) * TICK_US;
    assert Elapsed(m.clock.value, at[0]) == skipped + 1;
  }
}
