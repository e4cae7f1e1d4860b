/**
 The elastic per-source queue (adaptive jitter buffer): `Queue` is its state as a value, `Push` and
 `Pop` its two transitions, and the class `ElasticFrameQueue` the object that performs them in place.
 */
module Elastic {
  import opened Wrappers
  import opened Frames

  const QUEUE_CAPACITY := 50
  const MIN_TARGET_FRAMES := 2
  const MAX_TARGET_FRAMES := 8
  const SHRINK_MARGIN_FRAMES := 2
  const SHRINK_AFTER_TICKS := 10
  const REPREFILL_AFTER_EMPTY_TICKS := 3
  const TALKSPURT_GAP_US := 200_000

  datatype Queue = Queue(
    frames: seq<Frame>,
    prefilling: bool,
    prefillWaited: nat,
    overTicks: nat,
    emptyTicks: nat,
    lastPlayed: Option<Frame>,
    lastArrival: Option<int>,
    jitterMs: real,
    target: nat,
    pushed: nat,
    played: nat,
    compressed: nat,
    concealed: nat,
    overflowCompressed: nat)

  function New(): Queue {
    Queue([], true, 0, 0, 0, None, None, 0.0, MIN_TARGET_FRAMES, 0, 0, 0, 0, 0)
  }

  // ----- arrival jitter and target depth

  function Ceil(x: real): int {
    -(-x).Floor
  }

  /** Time since the previous arrival; a time that went backwards counts as no time. */
  function Gap(prev: int, now: int): nat {
    Max(0, now - prev)
  }

  function Deviation(gap: nat): real {
    var delta := gap as real / 1000.0;
    if delta < 20.0 then 20.0 - delta else delta - 20.0
  }

  function Smoothed(jitterMs: real, dev: real): real {
    if dev > jitterMs then jitterMs + (dev - jitterMs) * 0.25 else jitterMs + (dev - jitterMs) / 32.0
  }

  function TargetFor(jitterMs: real): nat {
    Clamp(Ceil(jitterMs / 20.0) + 1, MIN_TARGET_FRAMES, MAX_TARGET_FRAMES)
  }

  /** An arrival at `now` opens a new talk-spurt: it follows a pause longer than `TALKSPURT_GAP_US`. */
  predicate StartsTalkspurt(q: Queue, now: int) {
    q.lastArrival.Some? && Gap(q.lastArrival.value, now) > TALKSPURT_GAP_US
  }

  function UpdateJitter(q: Queue, now: int): Queue {
    if q.lastArrival.None? then
      q.(lastArrival := Some(now))
    else if StartsTalkspurt(q, now) then
      q.(prefilling := true, prefillWaited := 0, lastArrival := Some(now))
    else
      var jitter := Smoothed(q.jitterMs, Deviation(Gap(q.lastArrival.value, now)));
      q.(jitterMs := jitter, target := TargetFor(jitter), lastArrival := Some(now))
  }

  // ----- transitions

  /** Appends a frame; at capacity the two oldest frames are merged first. */
  function Append(q: Queue, pcm: seq<Byte>): Queue {
    if |q.frames| >= QUEUE_CAPACITY then
      q.(frames := [Merged(q.frames[0], q.frames[1])] + q.frames[2..] + [Raw(pcm)],
         pushed := q.pushed + 1, overflowCompressed := q.overflowCompressed + 1)
    else
      q.(frames := q.frames + [Raw(pcm)], pushed := q.pushed + 1)
  }

  /** An arrival; an ill-sized frame is ignored. */
  function Push(q: Queue, pcm: seq<Byte>, now: int): Queue {
    if IsValid(pcm) then Append(UpdateJitter(q, now), pcm) else q
  }

  function CountPrefillTick(q: Queue): Queue {
    if q.prefilling && q.frames != [] then q.(prefillWaited := q.prefillWaited + 1) else q
  }

  predicate Ready(q: Queue) {
    !q.prefilling || |q.frames| >= q.target || (q.frames != [] && q.prefillWaited >= q.target)
  }

  function Underrun(q: Queue): (Queue, Frame) {
    var first := q.emptyTicks == 0 && q.lastPlayed.Some?;
    var q' := q.(emptyTicks := q.emptyTicks + 1,
                 concealed := if first then q.concealed + 1 else q.concealed);
    var q'' := if q'.emptyTicks >= REPREFILL_AFTER_EMPTY_TICKS
               then q'.(prefilling := true, prefillWaited := 0) else q';
    (q'', if first then Faded(q.lastPlayed.value) else Silent)
  }

  /** Takes the next frame, or the next two merged while the depth has been over target for long. */
  function Take(q: Queue): (Queue, Frame) {
    var over := if |q.frames| > q.target + SHRINK_MARGIN_FRAMES then q.overTicks + 1 else 0;
    var q := q.(overTicks := over);
    if q.frames == [] then
      Underrun(q)
    else if over >= SHRINK_AFTER_TICKS && |q.frames| > 1 then
      var out := Merged(q.frames[0], q.frames[1]);
      (q.(frames := q.frames[2..], emptyTicks := 0, compressed := q.compressed + 1,
          played := q.played + 1, lastPlayed := Some(out)), out)
    else
      var out := q.frames[0];
      (q.(frames := q.frames[1..], emptyTicks := 0, played := q.played + 1, lastPlayed := Some(out)), out)
  }

  /** The frame of the next media tick. */
  function Pop(q: Queue): (Queue, Frame) {
    var q := CountPrefillTick(q);
    if !Ready(q) then (q, Silent)
    else Take(if q.prefilling then q.(prefilling := false, prefillWaited := 0) else q)
  }

  // ----- what every transition keeps

  /** The documented accounting invariant, and what the rest of the module needs to keep it. */
  ghost predicate Inv(q: Queue) {
    && q.pushed == q.played + q.compressed + q.overflowCompressed + |q.frames|
    && |q.frames| <= QUEUE_CAPACITY
    && 0.0 <= q.jitterMs <= 180.0
    && MIN_TARGET_FRAMES <= q.target <= MAX_TARGET_FRAMES
    && (q.lastArrival.None? ==> q.jitterMs == 0.0)
    && q.emptyTicks <= REPREFILL_AFTER_EMPTY_TICKS
    && (q.emptyTicks == REPREFILL_AFTER_EMPTY_TICKS ==> q.prefilling)
    && q.concealed <= q.played
    && (q.played == 0 <==> q.lastPlayed.None?)
    && (q.emptyTicks == 0 && q.played > 0 ==> q.concealed < q.played)
  }

  /** An exponentially smoothed value stays between its old value and the new sample. */
  lemma SmoothedBounds(j: real, dev: real, hi: real)
    requires 0.0 <= j <= hi && 0.0 <= dev <= hi
    ensures 0.0 <= Smoothed(j, dev) <= hi
  {
  }

  /** A quarter of the way up, or a thirty-second of the way down. */
  predicate MovesTowards(j: real, j': real, to': real) {
    if j < to' then 4.0 * (j' - j) == to' - j else 32.0 * (j - j') == j - to'
  }

  /** How far the gap between two arrivals is from 20 ms; time that went backwards is no gap. */
  function DistanceMs(prev: int, now: int): real {
    if now <= prev then 20.0
    else if now <= prev + 20_000 then (prev + 20_000 - now) as real / 1000.0
    else (now - prev - 20_000) as real / 1000.0
  }

  /**
   How an arrival moves the jitter estimate, by the times alone: towards the distance of the gap from 20 ms,
   a quarter of the way up or a thirty-second of the way down, early and late arrivals alike.
   */
  lemma ArrivalMovesEstimate(q: Queue, now: int)
    requires q.lastArrival.Some? && now - q.lastArrival.value <= TALKSPURT_GAP_US
    ensures MovesTowards(q.jitterMs, UpdateJitter(q, now).jitterMs, DistanceMs(q.lastArrival.value, now))
  {
  }

  lemma EarlyAndLateAlike(q: Queue, d: nat)
    requires q.lastArrival.Some? && d <= 20_000
    ensures var due := q.lastArrival.value + 20_000;
            UpdateJitter(q, due - d).jitterMs == UpdateJitter(q, due + d).jitterMs
  {
    ArrivalMovesEstimate(q, q.lastArrival.value + 20_000 - d);
    ArrivalMovesEstimate(q, q.lastArrival.value + 20_000 + d);
  }

  /** The target is one frame more than it takes to cover the estimate, between 2 and 8. */
  lemma TargetCovers(j: real)
    requires j >= 0.0
    ensures 2 <= TargetFor(j) <= 8
    ensures TargetFor(j) > 2 ==> 20.0 * (TargetFor(j) - 2) as real < j
    ensures TargetFor(j) < 8 ==> j <= 20.0 * (TargetFor(j) - 1) as real
  {
  }

  lemma PushKeepsInv(q: Queue, pcm: seq<Byte>, now: int)
    requires Inv(q)
    ensures Inv(Push(q, pcm, now))
  {
    if q.lastArrival.Some? && !StartsTalkspurt(q, now) {
      var gap := Gap(q.lastArrival.value, now);
      assert 0.0 <= gap as real / 1000.0 <= 200.0;
      SmoothedBounds(q.jitterMs, Deviation(gap), 180.0);
    }
  }

  lemma PopKeepsInv(q: Queue)
    requires Inv(q)
    ensures Inv(Pop(q).0)
  {
  }

  /** Pushing appends exactly the accepted frame to what the queue carries, also when it merges. */
  lemma PushKeepsSources(q: Queue, pcm: seq<Byte>, now: int)
    ensures SourcesOf(Push(q, pcm, now).frames) == SourcesOf(q.frames) + (if IsValid(pcm) then [pcm] else [])
  {
    if IsValid(pcm) {
      SourcesOfOne(Raw(pcm));
      if |q.frames| >= QUEUE_CAPACITY {
        MergeFrontKeepsSources(q.frames);
        SourcesOfConcat([Merged(q.frames[0], q.frames[1])] + q.frames[2..], [Raw(pcm)]);
      } else {
        SourcesOfConcat(q.frames, [Raw(pcm)]);
      }
    }
  }

  /** Merging the two oldest frames of a queue loses, duplicates and swaps nothing. */
  lemma MergeFrontKeepsSources(fs: seq<Frame>)
    requires |fs| >= 2
    ensures Sources(Merged(fs[0], fs[1])) + SourcesOf(fs[2..]) == SourcesOf(fs)
    ensures SourcesOf([Merged(fs[0], fs[1])] + fs[2..]) == SourcesOf(fs)
  {
    assert fs[1..][1..] == fs[2..] && ([Merged(fs[0], fs[1])] + fs[2..])[1..] == fs[2..];
    assert SourcesOf(fs[1..]) == Sources(fs[1]) + SourcesOf(fs[2..]);
  }

  /** At capacity only the two oldest frames are merged; all others stay as they are, the new one last. */
  lemma OverflowMergesOldest(q: Queue, pcm: seq<Byte>, now: int)
    requires IsValid(pcm) && |q.frames| <= 50
    ensures var fs, fs' := q.frames, Push(q, pcm, now).frames;
            if |fs| == 50
            then
              && |fs'| == |fs| && fs'[|fs| - 1] == Raw(pcm)
              && (forall i | 1 <= i < |fs| - 1 :: fs'[i] == fs[i + 1])
              && fs'[0].Merged? && fs'[0].older == fs[0] && fs'[0].newer == fs[1]
            else fs' == fs + [Raw(pcm)]
  {
  }

  /** An ill-sized frame is ignored, its arrival included; any other is counted. */
  lemma IllSizedIsIgnored(q: Queue, pcm: seq<Byte>, now: int)
    ensures |pcm| != 3_840 ==> Push(q, pcm, now) == q
    ensures |pcm| == 3_840 ==> Push(q, pcm, now).pushed == q.pushed + 1 && Push(q, pcm, now).lastArrival == Some(now)
  {
  }

  /** Popping moves the oldest sources from the queue to the output, and nothing else. */
  lemma PopKeepsSources(q: Queue)
    ensures Sources(Pop(q).1) + SourcesOf(Pop(q).0.frames) == SourcesOf(q.frames)
  {
    if |q.frames| > 1 {
      MergeFrontKeepsSources(q.frames);
    }
  }

  /**
   The prefill rule: a tick plays source audio exactly when there is some, and prefill is over, the
   queue holds `target` frames, or prefill has by now counted `target` ticks with a frame queued.
   */
  lemma PlaysWhen(q: Queue)
    requires Inv(q)
    ensures Pop(q).0.played == q.played + 1 <==>
      q.frames != [] && (!q.prefilling || |q.frames| >= q.target || q.prefillWaited + 1 >= q.target)
  {
  }

  // ----- the queue object

  class ElasticFrameQueue {
    var frames: seq<Frame>
    var prefilling: bool
    var prefillWaited: nat
    var overTicks: nat
    var emptyTicks: nat
    var lastPlayed: Option<Frame>
    var lastArrival: Option<int>
    var jitterMs: real
    var target: nat
    var pushed: nat
    var played: nat
    var compressed: nat
    var concealed: nat
    var overflowCompressed: nat

    function State(): Queue
      reads this
    {
      Queue(frames, prefilling, prefillWaited, overTicks, emptyTicks, lastPlayed, lastArrival, jitterMs,
            target, pushed, played, compressed, concealed, overflowCompressed)
    }

    constructor ()
      ensures State() == New() && Inv(State())
    {
      frames, prefilling, prefillWaited, overTicks, emptyTicks := [], true, 0, 0, 0;
      lastPlayed, lastArrival, jitterMs, target := None, None, 0.0, MIN_TARGET_FRAMES;
      pushed, played, compressed, concealed, overflowCompressed := 0, 0, 0, 0, 0;
    }

    method PushFrame(pcm: seq<Byte>, now: int)
      requires Inv(State())
      modifies this
      ensures State() == Push(old(State()), pcm, now) && Inv(State())
      ensures SourcesOf(frames) == SourcesOf(old(frames)) + (if IsValid(pcm) then [pcm] else [])
    {
      ghost var q := State();
      if IsValid(pcm) {
        NoteArrival(now);
        AppendFrame(pcm);
      }
      PushKeepsInv(q, pcm, now);
      PushKeepsSources(q, pcm, now);
    }

    method AppendFrame(pcm: seq<Byte>)
      modifies `frames, `pushed, `overflowCompressed
      ensures State() == Append(old(State()), pcm)
    {
      pushed := pushed + 1;
      if |frames| >= QUEUE_CAPACITY {
        var a, b := frames[0], frames[1];
        frames := [Merged(a, b)] + frames[2..];
        overflowCompressed := overflowCompressed + 1;
      }
      frames := frames + [Raw(pcm)];
    }

    method NoteArrival(now: int)
      modifies this
      ensures State() == UpdateJitter(old(State()), now)
      ensures lastArrival == Some(now)
      ensures old(lastArrival).Some? && now - old(lastArrival).value <= TALKSPURT_GAP_US ==>
        MovesTowards(old(jitterMs), jitterMs, DistanceMs(old(lastArrival).value, now))
    {
      if lastArrival.Some? && now - lastArrival.value <= TALKSPURT_GAP_US {
        ArrivalMovesEstimate(State(), now);
      }
      if lastArrival.Some? {
        var gap := Gap(lastArrival.value, now);
        if gap > TALKSPURT_GAP_US {
          prefilling, prefillWaited := true, 0;
          lastArrival := Some(now);
          return;
        }
        jitterMs := Smoothed(jitterMs, Deviation(gap));
        target := TargetFor(jitterMs);
      }
      lastArrival := Some(now);
    }

    method PopFrame() returns (out: Frame)
      requires Inv(State())
      modifies this
      ensures (State(), out) == Pop(old(State())) && Inv(State())
      ensures Sources(out) + SourcesOf(frames) == SourcesOf(old(frames))
    {
      ghost var q := State();
      if prefilling && frames != [] {
        prefillWaited := prefillWaited + 1;
      }
      var ready := !prefilling || |frames| >= target || (frames != [] && prefillWaited >= target);
      if !ready {
        out := Silent;
      } else {
        if prefilling {
          prefilling, prefillWaited := false, 0;
        }
        out := TakeFrame();
      }
      assert (State(), out) == Pop(q);
      PopKeepsInv(q);
      PopKeepsSources(q);
    }

    method TakeFrame() returns (out: Frame)
      modifies this
      ensures (State(), out) == Take(old(State()))
    {
      overTicks := if |frames| > target + SHRINK_MARGIN_FRAMES then overTicks + 1 else 0;
      if frames == [] {
        out := Conceal();
        return;
      }
      assert |frames| > 1 ==> frames[1..][0] == frames[1] && frames[1..][1..] == frames[2..];
      var first := frames[0];
      frames := frames[1..];
      emptyTicks := 0;
      if overTicks >= SHRINK_AFTER_TICKS && frames != [] {
        var second := frames[0];
        frames := frames[1..];
        compressed := compressed + 1;
        out := Merged(first, second);
      } else {
        out := first;
      }
      played := played + 1;
      lastPlayed := Some(out);
    }

    method Conceal() returns (out: Frame)
      modifies this
      ensures (State(), out) == Underrun(old(State()))
    {
      emptyTicks := emptyTicks + 1;
      out := Silent;
      if emptyTicks == 1 && lastPlayed.Some? {
        concealed := concealed + 1;
        out := Faded(lastPlayed.value);
      }
      if emptyTicks >= REPREFILL_AFTER_EMPTY_TICKS {
        prefilling, prefillWaited := true, 0;
      }
    }
  }
}
