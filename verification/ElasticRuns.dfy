/**
 Whole runs of the elastic queue: any interleaving of arrivals and media ticks, at any times.
 */
module ElasticRuns {
  import opened Wrappers
  import opened Frames
  import opened Elastic

  datatype Op = Arrive(pcm: seq<Byte>, now: int) | Tick

  /** Final state and the outputs of the ticks, in order. */
  function Run(q: Queue, ops: seq<Op>): (Queue, seq<Frame>)
    decreases ops
  {
    if ops == [] then (q, [])
    else match ops[0]
      case Arrive(pcm, now) => Run(Push(q, pcm, now), ops[1..])
      case Tick =>
        var (q', out) := Pop(q);
        var (q'', outs) := Run(q', ops[1..]);
        (q'', [out] + outs)
  }

  /** The frames the queue accepts in a run, in arrival order. */
  function Accepted(ops: seq<Op>): seq<seq<Byte>> {
    if ops == [] then []
    else if ops[0].Arrive? && IsValid(ops[0].pcm) then [ops[0].pcm] + Accepted(ops[1..])
    else Accepted(ops[1..])
  }

  // ----- provenance and accounting

  lemma {:induction false} RunKeepsSources(q: Queue, ops: seq<Op>)
    ensures SourcesOf(Run(q, ops).1) + SourcesOf(Run(q, ops).0.frames) == SourcesOf(q.frames) + Accepted(ops)
    decreases ops
  {
    if ops != [] {
      match ops[0]
      case Arrive(pcm, now) =>
        PushKeepsSources(q, pcm, now);
        RunKeepsSources(Push(q, pcm, now), ops[1..]);
      case Tick =>
        var (q', out) := Pop(q);
        var (q'', rest) := Run(q', ops[1..]);
        PopKeepsSources(q);
        RunKeepsSources(q', ops[1..]);
        SourcesOfConcat([out], rest);
        SourcesOfOne(out);
        Regroup(Sources(out), SourcesOf(rest), SourcesOf(q''.frames), SourcesOf(q'.frames), Accepted(ops[1..]));
    }
  }

  lemma Regroup<T>(out: seq<T>, rest: seq<T>, left: seq<T>, queued: seq<T>, accepted: seq<T>)
    requires rest + left == queued + accepted
    ensures (out + rest) + left == (out + queued) + accepted
  {
    assert (out + rest) + left == out + (rest + left);
  }

  lemma {:induction false} RunKeepsInv(q: Queue, ops: seq<Op>)
    requires Inv(q)
    ensures Inv(Run(q, ops).0)
    ensures Run(q, ops).0.pushed == q.pushed + |Accepted(ops)|
    decreases ops
  {
    if ops != [] {
      match ops[0]
      case Arrive(pcm, now) =>
        PushKeepsInv(q, pcm, now);
        RunKeepsInv(Push(q, pcm, now), ops[1..]);
      case Tick =>
        PopKeepsInv(q);
        RunKeepsInv(Pop(q).0, ops[1..]);
    }
  }

  /**
   From a new queue, whatever happens: what was played followed by what is still queued is exactly
   what was pushed, in order, and every pushed frame is counted in exactly one place.
   */
  lemma {:induction false} NothingLostDuplicatedOrReordered(ops: seq<Op>)
    ensures var (q, outs) := Run(New(), ops);
            && SourcesOf(outs) + SourcesOf(q.frames) == Accepted(ops)
            && |Accepted(ops)| == q.played + q.compressed + q.overflowCompressed + |q.frames|
            && |q.frames| <= 50
            && q.concealed <= q.played
            && MIN_TARGET_FRAMES <= q.target <= MAX_TARGET_FRAMES
            && 0.0 <= q.jitterMs <= 180.0
  {
    RunKeepsSources(New(), ops);
    RunKeepsInv(New(), ops);
  }

  // ----- concealment

  predicate IsPlayed(f: Frame) {
    f.Raw? || f.Merged?
  }

  /** A queue holds only source frames and merges of them. */
  ghost predicate HoldsAudio(q: Queue) {
    forall f <- q.frames :: IsPlayed(f)
  }

  /** A tick counts as played exactly when its output is. */
  lemma PopCountsPlayed(q: Queue)
    requires HoldsAudio(q)
    ensures HoldsAudio(Pop(q).0)
    ensures Pop(q).0.played == q.played + if IsPlayed(Pop(q).1) then 1 else 0
  {
    assert q.frames != [] ==> IsPlayed(q.frames[0]);
  }

  lemma PushKeepsAudio(q: Queue, pcm: seq<Byte>, now: int)
    requires HoldsAudio(q)
    ensures HoldsAudio(Push(q, pcm, now))
    ensures Push(q, pcm, now).played == q.played && Push(q, pcm, now).concealed == q.concealed
  {
  }

  /** The next empty tick would conceal. */
  predicate Armed(q: Queue) {
    q.emptyTicks == 0 && q.lastPlayed.Some?
  }

  lemma {:induction false} PlayedBeforeConcealed(q: Queue, ops: seq<Op>, j: nat)
    requires HoldsAudio(q) && !Armed(q)
    requires j < |Run(q, ops).1| && Run(q, ops).1[j].Faded?
    ensures exists k :: 0 <= k < j && IsPlayed(Run(q, ops).1[k])
    decreases ops
  {
    match ops[0]
    case Arrive(pcm, now) =>
      PlayedBeforeConcealed(Push(q, pcm, now), ops[1..], j);
    case Tick =>
      var (q', out) := Pop(q);
      var rest := Run(q', ops[1..]).1;
      assert Run(q, ops).1 == [out] + rest;
      if IsPlayed(out) {
        assert j > 0 && IsPlayed(Run(q, ops).1[0]);
      } else {
        PlayedBeforeConcealed(q', ops[1..], j - 1);
        var k :| 0 <= k < j - 1 && IsPlayed(rest[k]);
        assert Run(q, ops).1[k + 1] == rest[k];
      }
  }

  /** Two concealment frames are always separated by a played one. */
  lemma {:induction false} ConcealmentsAreSeparated(q: Queue, ops: seq<Op>, i: nat, j: nat)
    requires HoldsAudio(q)
    requires i < j < |Run(q, ops).1| && Run(q, ops).1[i].Faded? && Run(q, ops).1[j].Faded?
    ensures exists k :: i < k < j && IsPlayed(Run(q, ops).1[k])
    decreases ops
  {
    match ops[0]
    case Arrive(pcm, now) =>
      ConcealmentsAreSeparated(Push(q, pcm, now), ops[1..], i, j);
    case Tick =>
      var (q', out) := Pop(q);
      var rest := Run(q', ops[1..]).1;
      assert Run(q, ops).1 == [out] + rest;
      var k;
      if i == 0 {
        assert q.frames != [] ==> IsPlayed(q.frames[0]);
        PlayedBeforeConcealed(q', ops[1..], j - 1);
        k :| 0 <= k < j - 1 && IsPlayed(rest[k]);
      } else {
        ConcealmentsAreSeparated(q', ops[1..], i - 1, j - 1);
        k :| i - 1 < k < j - 1 && IsPlayed(rest[k]);
      }
      assert Run(q, ops).1[k + 1] == rest[k];
  }

  /** How many of the outputs are played frames, and how many are concealment. */
  function CountPlayed(outs: seq<Frame>): nat {
    if outs == [] then 0 else (if IsPlayed(outs[0]) then 1 else 0) + CountPlayed(outs[1..])
  }

  function CountFaded(outs: seq<Frame>): nat {
    if outs == [] then 0 else (if outs[0].Faded? then 1 else 0) + CountFaded(outs[1..])
  }

  /** A tick conceals exactly when it is the first empty one after something was played. */
  lemma ConcealsWhen(q: Queue)
    requires Inv(q) && HoldsAudio(q)
    ensures Pop(q).1.Faded? <==> q.frames == [] && !q.prefilling && q.emptyTicks == 0 && q.lastPlayed.Some?
  {
    assert q.frames != [] ==> IsPlayed(q.frames[0]);
  }

  lemma FadedIsCounted(q: Queue)
    requires HoldsAudio(q)
    ensures Pop(q).0.concealed == q.concealed + if Pop(q).1.Faded? then 1 else 0
  {
    assert q.frames != [] ==> IsPlayed(q.frames[0]);
  }

  /** The counters `played` and `concealed` are those of the outputs. */
  lemma {:induction false} CountersCountOutputs(q: Queue, ops: seq<Op>)
    requires HoldsAudio(q)
    ensures Run(q, ops).0.played == q.played + CountPlayed(Run(q, ops).1)
    ensures Run(q, ops).0.concealed == q.concealed + CountFaded(Run(q, ops).1)
    decreases ops
  {
    if ops != [] {
      match ops[0]
      case Arrive(pcm, now) =>
        PushKeepsAudio(q, pcm, now);
        CountersCountOutputs(Push(q, pcm, now), ops[1..]);
      case Tick =>
        PopCountsPlayed(q);
        FadedIsCounted(q);
        var (q', out) := Pop(q);
        var rest := Run(q', ops[1..]).1;
        assert ([out] + rest)[1..] == rest;
        CountersCountOutputs(q', ops[1..]);
    }
  }

  /** The last played frame among `outs`, or the one played before them. */
  function LastPlayed(before: Option<Frame>, outs: seq<Frame>): Option<Frame>
    decreases outs
  {
    if outs == [] then before
    else LastPlayed(if IsPlayed(outs[0]) then Some(outs[0]) else before, outs[1..])
  }

  lemma {:induction false} KeepsHoldingAudio(q: Queue, ops: seq<Op>)
    requires HoldsAudio(q)
    ensures HoldsAudio(Run(q, ops).0)
    ensures Run(q, ops).0.lastPlayed == LastPlayed(q.lastPlayed, Run(q, ops).1)
    decreases ops
  {
    if ops != [] {
      match ops[0]
      case Arrive(pcm, now) => KeepsHoldingAudio(Push(q, pcm, now), ops[1..]);
      case Tick =>
        assert q.frames != [] ==> IsPlayed(q.frames[0]);
        KeepsHoldingAudio(Pop(q).0, ops[1..]);
    }
  }

  /** A concealment frame is the fade of the last frame played before it. */
  lemma ConcealmentReplaysLastPlayed(q: Queue, ops: seq<Op>)
    requires HoldsAudio(q)
    ensures var (q', outs) := Run(q, ops);
            Pop(q').1.Faded? ==> Some(Pop(q').1.of) == LastPlayed(q.lastPlayed, outs)
  {
    KeepsHoldingAudio(q, ops);
    var q' := Run(q, ops).0;
    assert q'.frames != [] ==> IsPlayed(q'.frames[0]);
  }

  /**
   A pause keeps the estimate and the target, and the new talk-spurt waits for the usual prefill, counted
   from its own first frame: the next tick plays only if the queue holds `target` frames.
   */
  lemma PauseRestartsPrefill(q: Queue, pcm: seq<Byte>, now: int)
    requires Inv(q) && IsValid(pcm) && StartsTalkspurt(q, now)
    ensures var q' := Push(q, pcm, now);
            && q'.jitterMs == q.jitterMs && q'.target == q.target
            && (Pop(q').0.played > q'.played <==> |q'.frames| >= q'.target)
  {
  }

  /** An underrun replays the last frame once, then is silent, and its third empty tick re-enters prefill. */
  lemma UnderrunFadesOut(q: Queue, last: Frame)
    requires q.frames == [] && !q.prefilling && q.emptyTicks == 0 && q.lastPlayed == Some(last)
    ensures Run(q, [Tick]).1 == [Faded(last)] && !Run(q, [Tick]).0.prefilling
    ensures Run(q, [Tick, Tick]).1 == [Faded(last), Silent] && !Run(q, [Tick, Tick]).0.prefilling
    ensures Run(q, [Tick, Tick, Tick]).1 == [Faded(last), Silent, Silent] && Run(q, [Tick, Tick, Tick]).0.prefilling
  {
    var q1 := Pop(q).0;
    var q2 := Pop(q1).0;
    var q3 := Pop(q2).0;
    assert [Tick][1..] == [] && [Tick, Tick][1..] == [Tick] && [Tick, Tick, Tick][1..] == [Tick, Tick];
    assert Run(q2, [Tick]) == (q3, [Silent] + []);
    assert Run(q1, [Tick]) == (q2, [Silent] + []);
    assert Run(q1, [Tick, Tick]) == (q3, [Silent] + ([Silent] + []));
  }

  // ----- bounded delay

  /** What happens between two ticks: at most one arrival. */
  type Round = Option<(seq<Byte>, int)>

  function Arrival(q: Queue, r: Round): Queue {
    match r
    case None => q
    case Some((pcm, now)) => Push(q, pcm, now)
  }

  /** The queue as the n-th tick of `rounds` finds it. */
  function AtTick(q: Queue, rounds: seq<Round>, n: nat): Queue
    requires n < |rounds|
    decreases n
  {
    if n == 0 then Arrival(q, rounds[0]) else AtTick(Pop(Arrival(q, rounds[0])).0, rounds[1..], n - 1)
  }

  /** No arrival of the rounds changes the target depth. */
  predicate TargetStays(q: Queue, rounds: seq<Round>)
    decreases rounds
  {
    rounds == [] ||
    (var arrived := Arrival(q, rounds[0]);
     arrived.target == q.target && TargetStays(Pop(arrived).0, rounds[1..]))
  }

  predicate OverMargin(q: Queue) {
    |q.frames| > q.target + 2
  }

  /** Largest depth possible at the n-th tick while the depth has never been back within the margin. */
  function DepthBound(n: nat): int {
    if n < SHRINK_AFTER_TICKS then QUEUE_CAPACITY else QUEUE_CAPACITY - (n - SHRINK_AFTER_TICKS + 1)
  }

  ghost predicate Draining(atTick: Queue, n: nat) {
    !OverMargin(atTick) || (n <= atTick.overTicks && |atTick.frames| <= DepthBound(n))
  }

  /** Over the margin a tick takes one frame, or two once it has been over for long; else at most the margin stays. */
  lemma PopShrinks(q: Queue)
    requires Inv(q)
    ensures var q' := Pop(q).0;
            && q'.target == q.target
            && (if OverMargin(q)
                then q'.overTicks == q.overTicks + 1
                     && |q'.frames| == |q.frames| - (if q'.overTicks >= SHRINK_AFTER_TICKS then 2 else 1)
                else |q'.frames| < q.target + SHRINK_MARGIN_FRAMES)
  {
  }

  lemma ArrivalGrows(q: Queue, r: Round)
    requires |q.frames| <= QUEUE_CAPACITY
    ensures var q' := Arrival(q, r);
            |q'.frames| <= QUEUE_CAPACITY && |q'.frames| <= |q.frames| + 1 && q'.overTicks == q.overTicks
  {
  }

  lemma DrainingStep(atTick: Queue, r: Round, n: nat)
    requires Inv(atTick) && Draining(atTick, n)
    requires Arrival(Pop(atTick).0, r).target == Pop(atTick).0.target
    ensures Pop(atTick).0.target == atTick.target && Draining(Arrival(Pop(atTick).0, r), n + 1)
  {
    PopShrinks(atTick);
    ArrivalGrows(Pop(atTick).0, r);
  }

  /** One round later: `after` is the queue between the first tick and the second arrival. */
  lemma DrainingNext(q: Queue, rounds: seq<Round>, n: nat, done: nat) returns (after: Queue)
    requires Inv(q) && 0 < n < |rounds| && TargetStays(q, rounds)
    requires Draining(Arrival(q, rounds[0]), done)
    ensures Inv(after) && after.target == q.target && TargetStays(after, rounds[1..])
    ensures Draining(Arrival(after, rounds[1..][0]), done + 1)
    ensures AtTick(q, rounds, n) == AtTick(after, rounds[1..], n - 1)
  {
    var first := Arrival(q, rounds[0]);
    after := Pop(first).0;
    assert first.target == q.target && TargetStays(after, rounds[1..]) && rounds[1..][0] == rounds[1];
    assert Arrival(after, rounds[1]).target == after.target;
    ArrivalKeepsInv(q, rounds[0]);
    PopKeepsInv(first);
    DrainingStep(first, rounds[1], done);
  }

  lemma {:induction false} DrainingAtTick(q: Queue, rounds: seq<Round>, n: nat, done: nat, at: nat)
    requires Inv(q) && n < |rounds| && TargetStays(q, rounds)
    requires Draining(Arrival(q, rounds[0]), done) && at == done + n
    ensures Draining(AtTick(q, rounds, n), at) && AtTick(q, rounds, n).target == q.target
    decreases n
  {
    if n > 0 {
      var after := DrainingNext(q, rounds, n, done);
      DrainingAtTick(after, rounds[1..], n - 1, done + 1, at);
    }
  }

  lemma ArrivalKeepsInv(q: Queue, r: Round)
    requires Inv(q)
    ensures Inv(Arrival(q, r))
  {
    if r.Some? {
      PushKeepsInv(q, r.value.0, r.value.1);
    }
  }

  /**
   Bounded delay: while the target does not change and at most one frame arrives per tick, from any
   reachable state every tick from the 56th on finds at most `target + 2` frames.
   */
  lemma {:induction false} DelayIsBounded(q: Queue, rounds: seq<Round>, n: nat)
    requires Inv(q) && TargetStays(q, rounds)
    requires 55 <= n < |rounds|
    ensures |AtTick(q, rounds, n).frames| <= q.target + SHRINK_MARGIN_FRAMES
  {
    ArrivalKeepsInv(q, rounds[0]);
    DrainingAtTick(q, rounds, n, 0, n);
  }

  // ----- slimming needs ten ticks in a row

  /** For each tick of a run, whether it finds the depth over the margin. */
  function TicksOver(q: Queue, ops: seq<Op>): seq<bool>
    decreases ops
  {
    if ops == [] then []
    else match ops[0]
      case Arrive(pcm, now) => TicksOver(Push(q, pcm, now), ops[1..])
      case Tick => [OverMargin(q)] + TicksOver(Pop(q).0, ops[1..])
  }

  /** The i-th tick and the nine ticks before it were all over the margin. */
  predicate TenInARow(over: seq<bool>, i: nat)
    requires i < |over|
  {
    10 <= i + 1 && forall k | i - 9 <= k <= i :: over[k]
  }

  /** How many ticks end such a row. */
  function RowsOfTen(over: seq<bool>): nat {
    if over == [] then 0
    else RowsOfTen(over[..|over| - 1]) + if TenInARow(over, |over| - 1) then 1 else 0
  }

  /** The number of ticks over the margin since the last one that was not. */
  function Streak(over: seq<bool>): nat {
    if over == [] || !over[|over| - 1] then 0 else Streak(over[..|over| - 1]) + 1
  }

  lemma {:induction false} StreakReaches(over: seq<bool>, n: nat)
    ensures Streak(over) >= n <==> n <= |over| && forall k | |over| - n <= k < |over| :: over[k]
  {
    if n > 0 && over != [] {
      var last := |over| - 1;
      StreakReaches(over[..last], n - 1);
      if n <= |over| && over[last] {
        assert (forall k | last - (n - 1) <= k < last :: over[..last][k])
          <==> forall k | last - (n - 1) <= k < last :: over[k];
      }
    }
  }

  /** The largest estimate `n` arrivals can lead to. */
  function Worst(jitterMs: real, n: nat): real
    decreases n
  {
    if n == 0 then jitterMs else Worst(45.0 + 0.75 * jitterMs, n - 1)
  }

  lemma {:induction false} WorstIsMonotone(a: real, b: real, n: nat)
    requires a <= b
    ensures Worst(a, n) <= Worst(b, n)
    decreases n
  {
    if n > 0 {
      WorstIsMonotone(45.0 + 0.75 * a, 45.0 + 0.75 * b, n - 1);
    }
  }

  lemma TargetIsMonotone(a: real, b: real)
    requires a <= b
    ensures TargetFor(a) <= TargetFor(b)
  {
    assert a / 20.0 <= b / 20.0;
    assert (-(a / 20.0)).Floor >= (-(b / 20.0)).Floor;
  }

  /** `n` arrivals raise the target by at most `n + 2` frames. */
  lemma TargetRisesSlowly(j: real, n: nat)
    requires 0.0 <= j
    ensures TargetFor(Worst(j, n)) <= TargetFor(j) + n + 2
  {
    if 0 < n <= 3 {
      var j1 := 45.0 + 0.75 * j;
      var j2 := 45.0 + 0.75 * j1;
      var j3 := 45.0 + 0.75 * j2;
      assert Worst(j, 1) == Worst(j1, 0) == j1;
      assert Worst(j, 2) == Worst(j1, 1) == Worst(j2, 0) == j2;
      assert Worst(j, 3) == Worst(j1, 2) == Worst(j2, 1) == Worst(j3, 0) == j3;
    }
  }

  /** The depth the target can reach by `n` more arrivals is there once they have come. */
  predicate Covered(q: Queue, n: nat) {
    TargetFor(Worst(q.jitterMs, n)) <= |q.frames| + n + if q.prefilling then 0 else 1
  }

  /**
   While a row of ticks over the margin is counted, the queue is so deep that prefill, should a pause
   restart it, holds no tick back: `n` is how many frames arrive before the target is compared.
   */
  ghost predicate Counting(q: Queue) {
    && q.target == TargetFor(q.jitterMs)
    && (q.overTicks > 0 ==> forall n: nat :: Covered(q, n))
  }

  /** One arrival moves the estimate at most one step of `Worst`. */
  lemma EstimateStep(q: Queue, now: int)
    requires Inv(q) && q.target == TargetFor(q.jitterMs)
    ensures var q' := UpdateJitter(q, now);
            q'.target == TargetFor(q'.jitterMs) && q'.jitterMs <= 45.0 + 0.75 * q.jitterMs
  {
    if q.lastArrival.Some? && !StartsTalkspurt(q, now) {
      assert 0.0 <= Gap(q.lastArrival.value, now) as real / 1000.0 <= 200.0;
    }
  }

  lemma PushKeepsCounting(q: Queue, pcm: seq<Byte>, now: int)
    requires Inv(q) && Counting(q)
    ensures Counting(Push(q, pcm, now)) && Push(q, pcm, now).overTicks == q.overTicks
  {
    if IsValid(pcm) {
      EstimateStep(q, now);
      var q' := Push(q, pcm, now);
      if q.overTicks > 0 {
        forall n: nat ensures Covered(q', n) {
          WorstIsMonotone(q'.jitterMs, 45.0 + 0.75 * q.jitterMs, n);
          var m: nat := n + 1;
          assert Covered(q, m) && Worst(q.jitterMs, m) == Worst(45.0 + 0.75 * q.jitterMs, n);
          TargetIsMonotone(Worst(q'.jitterMs, n), Worst(q.jitterMs, m));
          assert Covered(q, n);
        }
      }
    }
  }

  /** A tick over the margin is counted, any other tick starts the count again, prefill or not. */
  lemma PopKeepsCounting(q: Queue)
    requires Inv(q) && Counting(q)
    ensures Counting(Pop(q).0)
    ensures Pop(q).0.overTicks == if OverMargin(q) then q.overTicks + 1 else 0
    ensures Pop(q).0.compressed ==
      if OverMargin(q) && q.overTicks + 1 >= SHRINK_AFTER_TICKS then q.compressed + 1 else q.compressed
  {
    if q.overTicks > 0 {
      assert Covered(q, 0);
      assert Worst(q.jitterMs, 0) == q.jitterMs;
    }
    if OverMargin(q) {
      forall n: nat ensures Covered(Pop(q).0, n) {
        TargetRisesSlowly(q.jitterMs, n);
      }
    }
  }

  /** The flags of the ticks so far say how many in a row were over the margin. */
  ghost predicate Counts(q: Queue, before: seq<bool>) {
    Inv(q) && Counting(q) && q.overTicks == Streak(before)
  }

  lemma TickCounts(q: Queue, before: seq<bool>)
    requires Counts(q, before)
    ensures var over := before + [OverMargin(q)];
            && Counts(Pop(q).0, over)
            && Pop(q).0.compressed == q.compressed + (if TenInARow(over, |before|) then 1 else 0)
            && RowsOfTen(over) == RowsOfTen(before) + if TenInARow(over, |before|) then 1 else 0
  {
    var over := before + [OverMargin(q)];
    assert over[..|over| - 1] == before;
    StreakReaches(over, SHRINK_AFTER_TICKS);
    PopKeepsInv(q);
    PopKeepsCounting(q);
  }

  lemma {:induction false} RunCounts(q: Queue, ops: seq<Op>, before: seq<bool>)
    requires Counts(q, before)
    ensures Counts(Run(q, ops).0, before + TicksOver(q, ops))
    ensures Run(q, ops).0.compressed + RowsOfTen(before) == q.compressed + RowsOfTen(before + TicksOver(q, ops))
    decreases ops
  {
    if ops == [] {
      assert before + [] == before;
    } else {
      match ops[0]
      case Arrive(pcm, now) =>
        PushKeepsInv(q, pcm, now);
        PushKeepsCounting(q, pcm, now);
        PushCompressesNothing(q, pcm, now);
        RunCounts(Push(q, pcm, now), ops[1..], before);
      case Tick =>
        TickCounts(q, before);
        RunCounts(Pop(q).0, ops[1..], before + [OverMargin(q)]);
        assert before + [OverMargin(q)] + TicksOver(Pop(q).0, ops[1..]) == before + TicksOver(q, ops);
    }
  }

  lemma CountsFromNew(ops: seq<Op>)
    ensures Counts(Run(New(), ops).0, TicksOver(New(), ops))
    ensures Run(New(), ops).0.compressed == RowsOfTen(TicksOver(New(), ops))
  {
    RunCounts(New(), ops, []);
    assert [] + TicksOver(New(), ops) == TicksOver(New(), ops);
  }

  lemma PushCompressesNothing(q: Queue, pcm: seq<Byte>, now: int)
    ensures Push(q, pcm, now).compressed == q.compressed
  {
  }

  /**
   Slimming takes ten consecutive ticks, in prefill or out of it.  After any arrivals and ticks from a
   new queue, the next tick takes two frames for one exactly when it and the nine ticks before it
   find more than `target + 2` frames.
   */
  lemma SlimsOnTenthTick(ops: seq<Op>)
    ensures var q := Run(New(), ops).0;
            var over := TicksOver(New(), ops) + [OverMargin(q)];
            Pop(q).0.compressed == q.compressed + (if TenInARow(over, |over| - 1) then 1 else 0)
  {
    CountsFromNew(ops);
    TickCounts(Run(New(), ops).0, TicksOver(New(), ops));
  }

  lemma {:induction false} NoRowOfTen(over: seq<bool>)
    ensures RowsOfTen(over) == 0 <==> forall i | 0 <= i < |over| :: !TenInARow(over, i)
  {
    if over != [] {
      var before := over[..|over| - 1];
      NoRowOfTen(before);
      assert forall i | 0 <= i < |before| :: TenInARow(over, i) == TenInARow(before, i);
    }
  }

  /**
   Over a whole run from a new queue, what slimming compressed is the number of ticks that end a row of
   ten over the margin; so it compresses nothing exactly when every burst is shorter than that,
   however many bursts there are.
   */
  lemma ShortBurstsAreNotCompressed(ops: seq<Op>)
    ensures var over := TicksOver(New(), ops);
            && Run(New(), ops).0.compressed == RowsOfTen(over)
            && (Run(New(), ops).0.compressed == 0 <==> forall i | 0 <= i < |over| :: !TenInARow(over, i))
  {
    CountsFromNew(ops);
    NoRowOfTen(TicksOver(New(), ops));
  }

  // ----- how long the oldest frame waits

  /** A queued frame: the ticks since it arrived, and whether a new talk-spurt has begun since. */
  datatype Age = Age(waited: nat, restarted: bool)

  function Restarted(ages: seq<Age>): (r: seq<Age>)
    ensures |r| == |ages| && forall i | 0 <= i < |r| :: r[i] == Age(ages[i].waited, true)
  {
    seq(|ages|, i requires 0 <= i < |ages| => Age(ages[i].waited, true))
  }

  function OneTickOlder(ages: seq<Age>): (r: seq<Age>)
    ensures |r| == |ages| && forall i | 0 <= i < |r| :: r[i] == Age(ages[i].waited + 1, ages[i].restarted)
  {
    seq(|ages|, i requires 0 <= i < |ages| => Age(ages[i].waited + 1, ages[i].restarted))
  }

  /** The ages after an arrival; of two merged frames the older one's counts. */
  function AgesAfterPush(q: Queue, ages: seq<Age>, pcm: seq<Byte>, now: int): (r: seq<Age>)
    requires |ages| == |q.frames|
    ensures |r| == |Push(q, pcm, now).frames|
  {
    if !IsValid(pcm) then ages
    else
      var older := if StartsTalkspurt(q, now) then Restarted(ages) else ages;
      (if |older| >= QUEUE_CAPACITY then [older[0]] + older[2..] else older) + [Age(0, false)]
  }

  function AgesAfterPop(q: Queue, ages: seq<Age>): (r: seq<Age>)
    requires |ages| == |q.frames|
    ensures |r| == |Pop(q).0.frames|
  {
    OneTickOlder(ages)[|q.frames| - |Pop(q).0.frames|..]
  }

  /** The ages of what is queued at the end of a run. */
  function AgesIn(q: Queue, ages: seq<Age>, ops: seq<Op>): (r: seq<Age>)
    requires |ages| == |q.frames|
    ensures |r| == |Run(q, ops).0.frames|
    decreases ops
  {
    if ops == [] then ages
    else match ops[0]
      case Arrive(pcm, now) => AgesIn(Push(q, pcm, now), AgesAfterPush(q, ages, pcm, now), ops[1..])
      case Tick => AgesIn(Pop(q).0, AgesAfterPop(q, ages), ops[1..])
  }

  /** The prefill counter against the oldest frame: never more than it waited, and just that unless restarted. */
  ghost predicate CountsOldest(q: Queue, ages: seq<Age>) {
    && |ages| == |q.frames|
    && (q.frames == [] || !q.prefilling ==> q.prefillWaited == 0)
    && (q.frames != [] && q.prefilling ==> q.prefillWaited <= ages[0].waited)
    && (q.frames != [] && q.prefilling && !ages[0].restarted ==> q.prefillWaited == ages[0].waited)
  }

  lemma PushCountsOldest(q: Queue, ages: seq<Age>, pcm: seq<Byte>, now: int)
    requires CountsOldest(q, ages)
    ensures CountsOldest(Push(q, pcm, now), AgesAfterPush(q, ages, pcm, now))
  {
  }

  lemma PopCountsOldest(q: Queue, ages: seq<Age>)
    requires Inv(q) && CountsOldest(q, ages)
    ensures CountsOldest(Pop(q).0, AgesAfterPop(q, ages))
  {
  }

  lemma {:induction false} RunCountsOldest(q: Queue, ages: seq<Age>, ops: seq<Op>)
    requires Inv(q) && CountsOldest(q, ages)
    ensures Inv(Run(q, ops).0) && CountsOldest(Run(q, ops).0, AgesIn(q, ages, ops))
    decreases ops
  {
    if ops != [] {
      match ops[0]
      case Arrive(pcm, now) =>
        PushKeepsInv(q, pcm, now);
        PushCountsOldest(q, ages, pcm, now);
        RunCountsOldest(Push(q, pcm, now), AgesAfterPush(q, ages, pcm, now), ops[1..]);
      case Tick =>
        PopKeepsInv(q);
        PopCountsOldest(q, ages);
        RunCountsOldest(Pop(q).0, AgesAfterPop(q, ages), ops[1..]);
    }
  }

  /** The documented condition for a tick to play: prefill is over, filled, or waited out by the oldest frame. */
  predicate MayPlay(q: Queue, ages: seq<Age>)
    requires |ages| == |q.frames|
  {
    q.frames != [] && (!q.prefilling || |q.frames| >= q.target || ages[0].waited + 1 >= q.target)
  }

  /**
   After any run from a new queue, a tick plays only if the documented condition holds, and it does play
   then unless a talk-spurt that began while the oldest frame was queued has restarted the count.
   */
  lemma PlaysWhenOldestWaited(ops: seq<Op>)
    ensures var q, ages := Run(New(), ops).0, AgesIn(New(), [], ops);
            && (Pop(q).0.played == q.played + 1 ==> MayPlay(q, ages))
            && (q.frames != [] && !ages[0].restarted ==> (Pop(q).0.played == q.played + 1 <==> MayPlay(q, ages)))
  {
    RunCountsOldest(New(), [], ops);
    PlaysWhen(Run(New(), ops).0);
  }

  /** A run and its ages, one operation at a time. */
  lemma FirstOp(q: Queue, ages: seq<Age>, op: Op, rest: seq<Op>, q': Queue, ages': seq<Age>)
    requires |ages| == |q.frames|
    requires match op
             case Arrive(pcm, now) => q' == Push(q, pcm, now) && ages' == AgesAfterPush(q, ages, pcm, now)
             case Tick => q' == Pop(q).0 && ages' == AgesAfterPop(q, ages)
    ensures |ages'| == |q'.frames|
    ensures Run(q, [op] + rest).0 == Run(q', rest).0 && AgesIn(q, ages, [op] + rest) == AgesIn(q', ages', rest)
  {
    assert ([op] + rest)[1..] == rest;
  }

  /** Two frames that came 200 ms apart, with `waited` ticks counted. */
  function TwoFrames(pcm: seq<Byte>, waited: nat): Queue {
    Queue([Raw(pcm), Raw(pcm)], true, waited, 0, 0, None, Some(200_000), 45.0, 4, 2, 0, 0, 0, 0)
  }

  /** The same with a third one after a pause. */
  function ThreeFrames(pcm: seq<Byte>, waited: nat): Queue {
    Queue([Raw(pcm), Raw(pcm), Raw(pcm)], true, waited, 0, 0, None, Some(480_000), 45.0, 4, 3, 0, 0, 0, 0)
  }

  lemma FirstTwoFrames(pcm: seq<Byte>)
    requires IsValid(pcm)
    ensures Push(Push(New(), pcm, 0), pcm, 200_000) == TwoFrames(pcm, 0)
    ensures AgesAfterPush(New(), [], pcm, 0) == [Age(0, false)]
    ensures AgesAfterPush(Push(New(), pcm, 0), [Age(0, false)], pcm, 200_000) == [Age(0, false), Age(0, false)]
  {
    assert Deviation(200_000) == 180.0 && Smoothed(0.0, 180.0) == 45.0 && TargetFor(45.0) == 4;
  }

  lemma ThirdFrame(pcm: seq<Byte>)
    requires IsValid(pcm)
    ensures Push(TwoFrames(pcm, 1), pcm, 480_000) == ThreeFrames(pcm, 0)
    ensures AgesAfterPush(TwoFrames(pcm, 1), [Age(1, false), Age(1, false)], pcm, 480_000)
         == [Age(1, true), Age(1, true), Age(0, false)]
  {
  }

  lemma HeldWithTwo(pcm: seq<Byte>)
    ensures Pop(TwoFrames(pcm, 0)) == (TwoFrames(pcm, 1), Silent)
    ensures AgesAfterPop(TwoFrames(pcm, 0), [Age(0, false), Age(0, false)]) == [Age(1, false), Age(1, false)]
  {
  }

  lemma HeldWithThree(pcm: seq<Byte>, waited: nat)
    requires waited < 3
    ensures Pop(ThreeFrames(pcm, waited)) == (ThreeFrames(pcm, waited + 1), Silent)
    ensures AgesAfterPop(ThreeFrames(pcm, waited), PausedAges(waited)) == PausedAges(waited + 1)
  {
    var q, older := ThreeFrames(pcm, waited), OneTickOlder(PausedAges(waited));
    assert Pop(q) == (CountPrefillTick(q), Silent);
    assert older == [older[0], older[1], older[2]] == PausedAges(waited + 1);
    assert AgesAfterPop(q, PausedAges(waited)) == older[0..] == older;
  }

  /** The ages `waited` ticks after the pause. */
  function PausedAges(waited: nat): seq<Age> {
    [Age(waited + 1, true), Age(waited + 1, true), Age(waited, false)]
  }

  lemma UntilPause(pcm: seq<Byte>, rest: seq<Op>)
    requires IsValid(pcm)
    ensures var ops := [Arrive(pcm, 0)] + ([Arrive(pcm, 200_000)] + ([Tick] + ([Arrive(pcm, 480_000)] + rest)));
            && Run(New(), ops).0 == Run(ThreeFrames(pcm, 0), rest).0
            && AgesIn(New(), [], ops) == AgesIn(ThreeFrames(pcm, 0), PausedAges(0), rest)
  {
    var q1, r3 := Push(New(), pcm, 0), [Arrive(pcm, 480_000)] + rest;
    var a1, a2, a3 := [Age(0, false)], [Age(0, false), Age(0, false)], [Age(1, false), Age(1, false)];
    FirstTwoFrames(pcm);
    FirstOp(New(), [], Arrive(pcm, 0), [Arrive(pcm, 200_000)] + ([Tick] + r3), q1, a1);
    FirstOp(q1, a1, Arrive(pcm, 200_000), [Tick] + r3, TwoFrames(pcm, 0), a2);
    HeldWithTwo(pcm);
    FirstOp(TwoFrames(pcm, 0), a2, Tick, r3, TwoFrames(pcm, 1), a3);
    ThirdFrame(pcm);
    FirstOp(TwoFrames(pcm, 1), a3, Arrive(pcm, 480_000), rest, ThreeFrames(pcm, 0), PausedAges(0));
  }

  lemma AfterPause(pcm: seq<Byte>)
    ensures Run(ThreeFrames(pcm, 0), [Tick] + ([Tick] + [])).0 == ThreeFrames(pcm, 2)
    ensures AgesIn(ThreeFrames(pcm, 0), PausedAges(0), [Tick] + ([Tick] + [])) == PausedAges(2)
  {
    HeldWithThree(pcm, 0);
    FirstOp(ThreeFrames(pcm, 0), PausedAges(0), Tick, [Tick] + [], ThreeFrames(pcm, 1), PausedAges(1));
    HeldWithThree(pcm, 1);
    FirstOp(ThreeFrames(pcm, 1), PausedAges(1), Tick, [], ThreeFrames(pcm, 2), PausedAges(2));
  }

  /**
   A case of the restart: with the next tick the first frame has waited 4 ticks, the target depth, and that
   tick is silent nevertheless because the frame after the pause made prefill count from zero.
   */
  lemma RestartHoldsOldest(pcm: seq<Byte>)
    requires IsValid(pcm)
    ensures var ops := [Arrive(pcm, 0), Arrive(pcm, 200_000), Tick, Arrive(pcm, 480_000), Tick, Tick];
            var q, ages := Run(New(), ops).0, AgesIn(New(), [], ops);
            && ages == [Age(3, true), Age(3, true), Age(2, false)] && q.target == 4
            && MayPlay(q, ages) && Pop(q).0.played == q.played && Pop(q).1 == Silent
  {
    var rest := [Tick] + ([Tick] + []);
    assert [Arrive(pcm, 0)] + ([Arrive(pcm, 200_000)] + ([Tick] + ([Arrive(pcm, 480_000)] + rest)))
        == [Arrive(pcm, 0), Arrive(pcm, 200_000), Tick, Arrive(pcm, 480_000), Tick, Tick];
    UntilPause(pcm, rest);
    AfterPause(pcm);
    HeldWithThree(pcm, 2);
  }

  // ----- prefill ends

  function Ticks(ops: seq<Op>): nat {
    if ops == [] then 0 else (if ops[0].Tick? then 1 else 0) + Ticks(ops[1..])
  }

  /** No arrival of the run follows a pause long enough to restart prefill. */
  predicate NoNewTalkspurt(q: Queue, ops: seq<Op>)
    decreases ops
  {
    ops == [] ||
    match ops[0]
    case Arrive(pcm, now) => (IsValid(pcm) ==> !StartsTalkspurt(q, now)) && NoNewTalkspurt(Push(q, pcm, now), ops[1..])
    case Tick => NoNewTalkspurt(Pop(q).0, ops[1..])
  }

  lemma {:induction false} PrefillEndsAfter(q: Queue, ops: seq<Op>)
    requires Inv(q) && q.frames != [] && NoNewTalkspurt(q, ops)
    requires Ticks(ops) > 0
    requires Ticks(ops) + (if q.prefilling then q.prefillWaited else MAX_TARGET_FRAMES - 1) >= MAX_TARGET_FRAMES
    ensures Run(q, ops).0.played > q.played
    decreases ops
  {
    match ops[0]
    case Arrive(pcm, now) =>
      PushKeepsInv(q, pcm, now);
      PrefillEndsAfter(Push(q, pcm, now), ops[1..]);
    case Tick =>
      PopKeepsInv(q);
      var q' := Pop(q).0;
      if q'.played > q.played {
        PlayedNeverDecreases(q', ops[1..]);
      } else {
        PrefillEndsAfter(q', ops[1..]);
      }
  }

  /**
   A non-empty queue, in prefill or not, has played something after `MAX_TARGET_FRAMES` ticks,
   whatever arrives meanwhile, unless a new talk-spurt restarts its prefill.
   */
  lemma PrefillEnds(q: Queue, ops: seq<Op>)
    requires Inv(q) && q.frames != [] && NoNewTalkspurt(q, ops)
    requires Ticks(ops) >= MAX_TARGET_FRAMES
    ensures Run(q, ops).0.played > q.played
  {
    PrefillEndsAfter(q, ops);
  }

  lemma {:induction false} PlayedNeverDecreases(q: Queue, ops: seq<Op>)
    ensures Run(q, ops).0.played >= q.played
    decreases ops
  {
    if ops != [] {
      match ops[0]
      case Arrive(pcm, now) => PlayedNeverDecreases(Push(q, pcm, now), ops[1..]);
      case Tick => PlayedNeverDecreases(Pop(q).0, ops[1..]);
    }
  }

  // ----- the target recovers from jitter

  /** Every accepted frame arrives exactly one frame duration after the one before it. */
  predicate Paced(ops: seq<Op>, last: int) {
    ops == [] ||
    if ops[0].Arrive? && IsValid(ops[0].pcm)
    then ops[0].now == last + TICK_US && Paced(ops[1..], ops[0].now)
    else Paced(ops[1..], last)
  }

  /** The accepted frames come in pairs, 40 ms apart; `again`: the next one comes with the one before it. */
  predicate InPairs(ops: seq<Op>, last: int, again: bool) {
    ops == [] ||
    if ops[0].Arrive? && IsValid(ops[0].pcm)
    then
      ops[0].now == (if again then last else last + 2 * TICK_US) && InPairs(ops[1..], ops[0].now, !again)
    else InPairs(ops[1..], last, again)
  }

  /** What is left of a distance after closing a quarter of it `n` times. */
  function Closer(left: real, n: nat): real
    decreases n
  {
    if n == 0 then left else Closer(0.75 * left, n - 1)
  }

  lemma {:induction false} CloserBounds(left: real, n: nat)
    requires 0.0 <= left
    ensures 0.0 <= Closer(left, n) <= left && (n > 0 ==> Closer(left, n) <= 0.75 * left)
    decreases n
  {
    if n > 0 {
      CloserBounds(0.75 * left, n - 1);
    }
  }

  /** It gets below any bound: after `n` times it is at most `3 / (3 + n)` of the distance. */
  lemma {:induction false} CloserVanishes(left: real, n: nat)
    requires 0.0 <= left
    ensures Closer(left, n) * (3 + n) as real <= 3.0 * left
    decreases n
  {
    CloserBounds(left, n);
    if n > 0 {
      CloserVanishes(0.75 * left, n - 1);
      var c := Closer(0.75 * left, n - 1);
      assert c * (3 + n) as real == c * (2 + n) as real + c;
    }
  }

  lemma PairedArrival(q: Queue, pcm: seq<Byte>, now: int)
    requires IsValid(pcm) && 0.0 <= q.jitterMs <= 20.0
    requires q.lastArrival == Some(now) || q.lastArrival == Some(now - 2 * TICK_US)
    ensures 20.0 - Push(q, pcm, now).jitterMs == 0.75 * (20.0 - q.jitterMs)
    ensures q.jitterMs <= Push(q, pcm, now).jitterMs <= 20.0
    ensures Push(q, pcm, now).lastArrival == Some(now)
  {
    ArrivalMovesEstimate(q, now);
  }

  /**
   Bunched arrivals count as jitter.  Frames that come in pairs every 40 ms are as far off as they can be by
   20 ms, early and late in turn: they keep the estimate within 0..20 ms and drive it to 20, from
   any estimate below, closing a quarter of the distance with every frame.
   */
  lemma {:induction false} PairsDriveEstimate(q: Queue, ops: seq<Op>, again: bool)
    requires 0.0 <= q.jitterMs <= 20.0
    requires q.lastArrival.Some? && InPairs(ops, q.lastArrival.value, again)
    ensures 20.0 - Run(q, ops).0.jitterMs == Closer(20.0 - q.jitterMs, |Accepted(ops)|)
    ensures q.jitterMs <= Run(q, ops).0.jitterMs <= 20.0
    decreases ops
  {
    if ops != [] {
      match ops[0]
      case Arrive(pcm, now) =>
        if IsValid(pcm) {
          PairedArrival(q, pcm, now);
          PairsDriveEstimate(Push(q, pcm, now), ops[1..], !again);
        } else {
          PairsDriveEstimate(q, ops[1..], again);
        }
      case Tick =>
        PopKeepsEstimate(q);
        PairsDriveEstimate(Pop(q).0, ops[1..], again);
    }
  }

  lemma PopKeepsEstimate(q: Queue)
    ensures Pop(q).0.jitterMs == q.jitterMs && Pop(q).0.lastArrival == q.lastArrival
  {
  }

  function Decayed(jitterMs: real, arrivals: nat): real
    decreases arrivals
  {
    if arrivals == 0 then jitterMs else Decayed(jitterMs * 31.0 / 32.0, arrivals - 1)
  }

  lemma PacedArrival(q: Queue, pcm: seq<Byte>, now: int)
    requires Inv(q) && IsValid(pcm) && q.lastArrival == Some(now - TICK_US)
    ensures Push(q, pcm, now).jitterMs == q.jitterMs * 31.0 / 32.0
    ensures Push(q, pcm, now).target == TargetFor(q.jitterMs * 31.0 / 32.0)
    ensures Push(q, pcm, now).lastArrival == Some(now)
  {
    assert Deviation(Gap(now - TICK_US, now)) == 0.0;
  }

  lemma {:induction false} PacedRun(q: Queue, ops: seq<Op>)
    requires Inv(q) && q.lastArrival.Some? && Paced(ops, q.lastArrival.value)
    ensures var q' := Run(q, ops).0;
            && q'.jitterMs == Decayed(q.jitterMs, |Accepted(ops)|)
            && (Accepted(ops) != [] || q.target == TargetFor(q.jitterMs) ==> q'.target == TargetFor(q'.jitterMs))
    decreases ops
  {
    if ops != [] {
      match ops[0]
      case Arrive(pcm, now) =>
        if IsValid(pcm) {
          PacedArrival(q, pcm, now);
        }
        PushKeepsInv(q, pcm, now);
        PacedRun(Push(q, pcm, now), ops[1..]);
      case Tick =>
        PopKeepsInv(q);
        PacedRun(Pop(q).0, ops[1..]);
    }
  }

  lemma DecayOne(j: real, n: nat)
    ensures Decayed(j, n + 1) == Decayed(j * 31.0 / 32.0, n)
  {
  }

  lemma DecayFive(j: real, n: nat) returns (j': real)
    requires j >= 0.0
    ensures Decayed(j, n + 5) == Decayed(j', n) && 0.0 <= j' <= 0.8533 * j
  {
    var j1 := j * 31.0 / 32.0;
    var j2 := j1 * 31.0 / 32.0;
    var j3 := j2 * 31.0 / 32.0;
    var j4 := j3 * 31.0 / 32.0;
    j' := j4 * 31.0 / 32.0;
    DecayOne(j, n + 4);
    DecayOne(j1, n + 3);
    DecayOne(j2, n + 2);
    DecayOne(j3, n + 1);
    DecayOne(j4, n);
  }

  /** Ten paced arrivals take away more than a quarter of the estimate. */
  lemma DecayTen(j: real, n: nat) returns (j': real)
    requires j >= 0.0
    ensures Decayed(j, n + 10) == Decayed(j', n) && 0.0 <= j' <= 0.7285 * j
  {
    var middle := DecayFive(j, n + 5);
    j' := DecayFive(middle, n);
  }

  lemma {:induction false} DecayedBounds(j: real, n: nat)
    requires j >= 0.0
    ensures 0.0 <= Decayed(j, n) <= j
    decreases n
  {
    if n > 0 {
      DecayedBounds(j * 31.0 / 32.0, n - 1);
    }
  }

  lemma {:induction false} DecayTens(j: real, bound: real, tens: nat, n: nat)
    requires 0.0 <= j <= bound
    ensures Decayed(j, n + 10 * tens) <= Shrunk(bound, tens)
    decreases tens
  {
    if tens == 0 {
      DecayedBounds(j, n);
    } else {
      var m: nat := n + 10 * (tens - 1);
      assert n + 10 * tens == m + 10;
      var j' := DecayTen(j, m);
      DecayTens(j', 0.7285 * bound, tens - 1, n);
    }
  }

  function Shrunk(bound: real, tens: nat): real
    decreases tens
  {
    if tens == 0 then bound else Shrunk(0.7285 * bound, tens - 1)
  }

  /**
   From any reachable state, seventy accepted frames that each arrive exactly one frame duration
   after the one before bring the target depth back to its minimum, ticks in between or not.
   */
  lemma {:induction false} TargetRecovers(q: Queue, ops: seq<Op>)
    requires Inv(q) && q.lastArrival.Some? && Paced(ops, q.lastArrival.value)
    requires |Accepted(ops)| >= 70
    ensures Run(q, ops).0.target == MIN_TARGET_FRAMES
  {
    PacedRun(q, ops);
    var n: nat := |Accepted(ops)| - 70;
    DecayTens(q.jitterMs, 180.0, 7, n);
    assert n + 10 * 7 == |Accepted(ops)|;
    assert Shrunk(180.0, 7) <= 20.0 by {
      assert Shrunk(180.0, 7) == Shrunk(0.7285 * (0.7285 * (0.7285 * 180.0)), 4);
      assert Shrunk(0.7285 * (0.7285 * (0.7285 * 180.0)), 4) ==
        Shrunk(0.7285 * (0.7285 * (0.7285 * (0.7285 * (0.7285 * (0.7285 * 180.0))))), 1);
    }
    DecayedBounds(q.jitterMs, |Accepted(ops)|);
    var j := Run(q, ops).0.jitterMs;
    assert 0.0 <= j <= 20.0;
    assert Ceil(j / 20.0) <= 1;
  }
}
