/**
 The outbound pacer.  Slots follow each other 20 ms apart from an anchor; a call renders those that have
 become due, but of a longer backlog only the latest `MAX_BURST_WRITES`.  Times are in microseconds.
 */
module Pacer {
  import opened Frames

  const MAX_BURST_WRITES := 4

  datatype State = State(anchor: int, written: nat, skippedTotal: nat, reanchors: nat)

  function SlotAt(p: State, n: nat): int {
    p.anchor + FRAME_MS * n * 1_000
  }

  function NextDue(p: State): int {
    SlotAt(p, p.written + 1)
  }

  function ElapsedSlots(p: State, now: int): nat {
    if now < p.anchor then 0 else (now - p.anchor) / 1_000 / FRAME_MS
  }

  /** Slots `first, ..., last`, by their times. */
  function SlotTimes(p: State, first: nat, last: nat): (at: seq<int>)
    ensures |at| == if first <= last then last - first + 1 else 0
    ensures forall i | 0 <= i < |at| :: at[i] == SlotAt(p, first + i)
    decreases last
  {
    if first > last then []
    else if last == 0 then [SlotAt(p, last)]
    else SlotTimes(p, first, last - 1) + [SlotAt(p, last)]
  }

  function DueSlots(p: State, now: int): (State, seq<int>, nat) {
    var elapsed := ElapsedSlots(p, now);
    var due: nat := if elapsed > p.written then elapsed - p.written else 0;
    var skipped: nat := if due > MAX_BURST_WRITES then due - MAX_BURST_WRITES else 0;
    var at := SlotTimes(p, p.written + skipped + 1, elapsed);
    (p.(written := if elapsed > p.written then elapsed else p.written,
        skippedTotal := p.skippedTotal + skipped,
        reanchors := if due > MAX_BURST_WRITES then p.reanchors + 1 else p.reanchors), at, skipped)
  }

  /**
   One call, at any time: the slots it passes are first the skipped ones, then the rendered ones, at
   most `MAX_BURST_WRITES`; the next slot is due later than `now`.
   */
  lemma CallAccounts(p: State, now: int)
    ensures var (p', at, skipped) := DueSlots(p, now);
            && p'.anchor == p.anchor
            && p'.written == p.written + skipped + |at|
            && p'.skippedTotal == p.skippedTotal + skipped
            && |at| <= MAX_BURST_WRITES
            && (skipped > 0 ==> |at| == MAX_BURST_WRITES)
            && p'.reanchors == p.reanchors + (if skipped > 0 then 1 else 0)
            && (forall i | 0 <= i < |at| :: at[i] == SlotAt(p, p.written + skipped + 1 + i))
            && (forall t <- at :: t <= now)
            && NextDue(p') > now
  {
  }

  /** A call renders something exactly from the time the next slot is due. */
  lemma RendersWhenDue(p: State, now: int)
    ensures DueSlots(p, now).1 != [] <==> now >= NextDue(p)
    ensures NextDue(p) == p.anchor + (p.written + 1) * 20_000
  {
    CallAccounts(p, now);
  }

  // ----- whole runs

  function Run(p: State, times: seq<int>): (State, seq<int>)
    decreases times
  {
    if times == [] then (p, [])
    else
      var (p', at, _) := DueSlots(p, times[0]);
      var (p'', later) := Run(p', times[1..]);
      (p'', at + later)
  }

  /** Times of slots in `(lo, hi]`, strictly increasing. */
  ghost predicate SlotsIn(p: State, at: seq<int>, lo: nat, hi: nat) {
    && (forall i | 0 <= i < |at| :: SlotAt(p, lo) < at[i] <= SlotAt(p, hi) && (at[i] - p.anchor) % TICK_US == 0)
    && (forall i, j | 0 <= i < j < |at| :: at[i] < at[j])
  }

  lemma CallInOrder(p: State, now: int)
    ensures var (p', at, _) := DueSlots(p, now);
            SlotsIn(p, at, p.written, p'.written)
  {
    CallAccounts(p, now);
    var (p', at, skipped) := DueSlots(p, now);
    forall i | 0 <= i < |at|
      ensures SlotAt(p, p.written) < at[i] <= SlotAt(p, p'.written) && (at[i] - p.anchor) % TICK_US == 0
    {
      assert at[i] == p.anchor + (p.written + skipped + 1 + i) * TICK_US;
    }
  }

  lemma SlotsJoin(p: State, a: seq<int>, b: seq<int>, lo: nat, mid: nat, hi: nat)
    requires SlotsIn(p, a, lo, mid) && SlotsIn(p, b, mid, hi) && lo <= mid <= hi
    ensures SlotsIn(p, a + b, lo, hi)
  {
  }

  /**
   Over any calls, at times in any order: the rendered slots strictly increase, so none is rendered
   twice, and each slot passed is rendered or counted in `skippedTotal`.
   */
  lemma {:induction false} RenderedOrSkippedOnce(p: State, times: seq<int>)
    ensures var (p', at) := Run(p, times);
            && p'.anchor == p.anchor
            && SlotsIn(p, at, p.written, p'.written)
            && p'.written - p.written == |at| + (p'.skippedTotal - p.skippedTotal)
            && p.written <= p'.written
    decreases times
  {
    if times != [] {
      CallAccounts(p, times[0]);
      CallInOrder(p, times[0]);
      var (p', at, _) := DueSlots(p, times[0]);
      RenderedOrSkippedOnce(p', times[1..]);
      var (p'', later) := Run(p', times[1..]);
      assert SlotsIn(p, later, p'.written, p''.written);
      SlotsJoin(p, at, later, p.written, p'.written, p''.written);
    }
  }

  /** The next slot is due after every time the pacer has been called with. */
  lemma {:induction false} NextDueIsAhead(p: State, times: seq<int>, i: nat)
    requires i < |times|
    ensures NextDue(Run(p, times).0) > times[i]
    decreases times
  {
    CallAccounts(p, times[0]);
    var p' := DueSlots(p, times[0]).0;
    if i == 0 {
      RenderedOrSkippedOnce(p', times[1..]);
    } else {
      NextDueIsAhead(p', times[1..], i - 1);
    }
  }

  // ----- the pacer object

  class OutboundPacer {
    const anchor: int
    var written: nat
    var skippedTotal: nat
    var reanchors: nat

    function AsState(): State
      reads this
    {
      State(anchor, written, skippedTotal, reanchors)
    }

    constructor (anchor: int)
      ensures AsState() == State(anchor, 0, 0, 0)
    {
      this.anchor, written, skippedTotal, reanchors := anchor, 0, 0, 0;
    }

    method Due(now: int) returns (at: seq<int>, skipped: nat)
      modifies this
      ensures (AsState(), at, skipped) == DueSlots(old(AsState()), now)
      ensures NextDue(AsState()) > now && |at| <= MAX_BURST_WRITES
      ensures written == old(written) + skipped + |at|
    {
      ghost var p := AsState();
      CallAccounts(p, now);
      var elapsed := ElapsedSlots(AsState(), now);
      var due := if elapsed > written then elapsed - written else 0;
      skipped := 0;
      if due > MAX_BURST_WRITES {
        skipped := due - MAX_BURST_WRITES;
        written := written + skipped;
        skippedTotal := skippedTotal + skipped;
        reanchors := reanchors + 1;
      }
      at := [];
      var n := written + 1;
      while n <= elapsed
        invariant written + 1 <= n && (n <= elapsed + 1 || n == written + 1)
        invariant at == SlotTimes(p, written + 1, n - 1)
      {
        at := at + [SlotAt(AsState(), n)];
        n := n + 1;
      }
      if elapsed > written {
        written := elapsed;
      }
    }
  }
}
