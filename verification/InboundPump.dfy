/**
 The inbound audio pump: a reader task and a processor task that share a channel and two atomic
 gauges, as a step system.  A step is one access to shared state or one completed await; both tasks
 interleave in any order, and what the outside answers (`running`, `read`) is part of the action.
 */
module InboundPump {
  import opened Wrappers

  const SILENCE_TAIL_FRAMES := 75

  /** A queued frame: read from the track, or a silence frame injected after a stream end. */
  datatype Item<F> = Real(frame: F) | Silence

  /** `tail`: silence frames of the current tail queued so far. */
  datatype Reader<F> =
    | AtLoop
    | Reading
    | Counting(item: Item<F>, tail: nat)
    | Recording(item: Item<F>, tail: nat, seen: int)
    | Sending(item: Item<F>, tail: nat)
    | InTail(tail: nat)
    | Pausing
    | ReaderEnded

  datatype Processor<F> = Receiving | Processing(item: Item<F>) | Uncounting | ProcessorEnded

  /**
   The shared state (`channel`, `backlog`, `maxBacklog`), both tasks, the reader's flag, and the
   history the properties speak about.
   */
  datatype Pump<F> = Pump(
    reader: Reader<F>,
    processor: Processor<F>,
    awaitingNextBurst: bool,
    channel: seq<Item<F>>,
    backlog: int,
    maxBacklog: int,
    read: seq<F>,
    enqueued: seq<Item<F>>,
    processed: seq<Item<F>>,
    peak: int)

  function Start<F>(): Pump<F> {
    Pump(AtLoop, Receiving, false, [], 0, 0, [], [], [], 0)
  }

  datatype Action<F> =
    | CheckRunning(running: bool)
    | ReadPcm(frame: F)
    | ReadStreamEnd
    | ReadError
    | ReaderStep
    | ProcessorStep

  /** One step of the reader or the processor; `None` when the action is not possible. */
  function Step<F>(s: Pump<F>, a: Action<F>): Option<Pump<F>> {
    match a
    case CheckRunning(running) =>
      (match s.reader
       case AtLoop => Some(s.(reader := if running then Reading else ReaderEnded))
       case InTail(k) =>
         if k < SILENCE_TAIL_FRAMES then Some(s.(reader := if running then Counting(Silence, k) else Pausing)) else None
       case _ => None)
    case ReadPcm(frame) =>
      if s.reader.Reading?
      then Some(s.(reader := Counting(Real(frame), 0), awaitingNextBurst := false, read := s.read + [frame]))
      else None
    case ReadStreamEnd =>
      if !s.reader.Reading? then None
      else if s.awaitingNextBurst then Some(s.(reader := Pausing))
      else Some(s.(reader := InTail(0), awaitingNextBurst := true))
    case ReadError => if s.reader.Reading? then Some(s.(reader := Pausing)) else None
    case ReaderStep =>
      (match s.reader
       case Counting(item, k) =>
         Some(s.(reader := Recording(item, k, s.backlog + 1), backlog := s.backlog + 1,
                 peak := Max(s.peak, s.backlog + 1)))
       case Recording(item, k, seen) => Some(s.(reader := Sending(item, k), maxBacklog := Max(s.maxBacklog, seen)))
       case Sending(item, k) =>
         Some(s.(reader := if item.Real? then AtLoop else InTail(k + 1),
                 channel := s.channel + [item], enqueued := s.enqueued + [item]))
       case InTail(k) => if k >= SILENCE_TAIL_FRAMES then Some(s.(reader := Pausing)) else None
       case Pausing => Some(s.(reader := AtLoop))
       case _ => None)
    case ProcessorStep =>
      (match s.processor
       case Receiving =>
         if s.channel != [] then Some(s.(processor := Processing(s.channel[0]), channel := s.channel[1..]))
         else if s.reader.ReaderEnded? then Some(s.(processor := ProcessorEnded))
         else None
       case Processing(item) => Some(s.(processor := Uncounting, processed := s.processed + [item]))
       case Uncounting => Some(s.(processor := Receiving, backlog := s.backlog - 1))
       case ProcessorEnded => None)
  }

  // ----- the invariant

  function InProcess<F>(s: Pump<F>): seq<Item<F>> {
    if s.processor.Processing? then [s.processor.item] else []
  }

  /** A frame taken off the channel and not yet taken off the gauge. */
  function Held<F>(s: Pump<F>): nat {
    if s.processor.Processing? || s.processor.Uncounting? then 1 else 0
  }

  /** A frame already on the gauge and not yet in the channel. */
  function Announced<F>(s: Pump<F>): nat {
    if s.reader.Recording? || s.reader.Sending? then 1 else 0
  }

  function InFlight<F>(s: Pump<F>): Option<Item<F>> {
    if s.reader.Counting? || s.reader.Recording? || s.reader.Sending? then Some(s.reader.item) else None
  }

  function Frames<F>(items: seq<Item<F>>): seq<F> {
    if items == [] then []
    else Frames(items[..|items| - 1]) + if items[|items| - 1].Real? then [items[|items| - 1].frame] else []
  }

  /** Silence frames at the end of `items`. */
  function TrailingSilence<F>(items: seq<Item<F>>): nat {
    if items == [] || items[|items| - 1].Real? then 0 else 1 + TrailingSilence(items[..|items| - 1])
  }

  /** Never more than `SILENCE_TAIL_FRAMES` silence frames in a row. */
  ghost predicate SilenceBounded<F>(items: seq<Item<F>>) {
    forall n | 0 <= n <= |items| :: TrailingSilence(items[..n]) <= SILENCE_TAIL_FRAMES
  }

  ghost predicate OrderKept<F>(s: Pump<F>) {
    s.enqueued == s.processed + InProcess(s) + s.channel
  }

  ghost predicate ReadsKept<F>(s: Pump<F>) {
    match InFlight(s)
    case Some(Real(frame)) => s.read == Frames(s.enqueued) + [frame]
    case _ => s.read == Frames(s.enqueued)
  }

  ghost predicate GaugeExact<F>(s: Pump<F>) {
    && s.backlog == |s.channel| + Held(s) + Announced(s)
    && s.peak == (if s.reader.Recording? then Max(s.maxBacklog, s.reader.seen) else s.maxBacklog)
    && s.backlog <= s.peak
  }

  ghost predicate TailBounded<F>(s: Pump<F>) {
    var trailing := TrailingSilence(s.enqueued);
    && SilenceBounded(s.enqueued)
    && (match s.reader
        case InTail(k) => s.awaitingNextBurst && trailing == k <= SILENCE_TAIL_FRAMES
        case Counting(item, k) => item.Silence? ==> s.awaitingNextBurst && trailing == k < SILENCE_TAIL_FRAMES
        case Recording(item, k, _) => item.Silence? ==> s.awaitingNextBurst && trailing == k < SILENCE_TAIL_FRAMES
        case Sending(item, k) => item.Silence? ==> s.awaitingNextBurst && trailing == k < SILENCE_TAIL_FRAMES
        case _ => s.awaitingNextBurst || trailing == 0)
  }

  ghost predicate EndsDrained<F>(s: Pump<F>) {
    s.processor.ProcessorEnded? ==> s.reader.ReaderEnded? && s.channel == []
  }

  ghost predicate Inv<F>(s: Pump<F>) {
    OrderKept(s) && ReadsKept(s) && GaugeExact(s) && TailBounded(s) && EndsDrained(s)
  }

  lemma FramesSnoc<F>(items: seq<Item<F>>, item: Item<F>)
    ensures Frames(items + [item]) == Frames(items) + if item.Real? then [item.frame] else []
    ensures TrailingSilence(items + [item]) == if item.Real? then 0 else TrailingSilence(items) + 1
  {
    assert (items + [item])[..|items|] == items;
  }

  lemma SilenceBoundedSnoc<F>(items: seq<Item<F>>, item: Item<F>)
    requires SilenceBounded(items) && (item.Real? || TrailingSilence(items) < SILENCE_TAIL_FRAMES)
    ensures SilenceBounded(items + [item])
  {
    FramesSnoc(items, item);
    forall n | 0 <= n <= |items + [item]| ensures TrailingSilence((items + [item])[..n]) <= SILENCE_TAIL_FRAMES {
      if n <= |items| {
        assert (items + [item])[..n] == items[..n];
      } else {
        assert (items + [item])[..n] == items + [item];
        assert items[..|items|] == items;
      }
    }
  }

  lemma StepKeepsOrder<F>(s: Pump<F>, a: Action<F>)
    requires OrderKept(s) && Step(s, a).Some?
    ensures OrderKept(Step(s, a).value)
  {
    if a.ReaderStep? && s.reader.Sending? {
      assert s.processed + InProcess(s) + (s.channel + [s.reader.item]) == s.enqueued + [s.reader.item];
    }
  }

  lemma StepKeepsReads<F>(s: Pump<F>, a: Action<F>)
    requires ReadsKept(s) && Step(s, a).Some?
    ensures ReadsKept(Step(s, a).value)
  {
    if a.ReaderStep? && s.reader.Sending? {
      FramesSnoc(s.enqueued, s.reader.item);
    }
  }

  lemma StepKeepsGauge<F>(s: Pump<F>, a: Action<F>)
    requires GaugeExact(s) && EndsDrained(s) && Step(s, a).Some?
    ensures GaugeExact(Step(s, a).value) && EndsDrained(Step(s, a).value)
  {
  }

  lemma StepKeepsTail<F>(s: Pump<F>, a: Action<F>)
    requires TailBounded(s) && Step(s, a).Some?
    ensures TailBounded(Step(s, a).value)
  {
    if a.ReaderStep? && s.reader.Sending? {
      FramesSnoc(s.enqueued, s.reader.item);
      SilenceBoundedSnoc(s.enqueued, s.reader.item);
    }
  }

  lemma StepKeepsInv<F>(s: Pump<F>, a: Action<F>)
    requires Inv(s) && Step(s, a).Some?
    ensures Inv(Step(s, a).value)
  {
    StepKeepsOrder(s, a);
    StepKeepsReads(s, a);
    StepKeepsGauge(s, a);
    StepKeepsTail(s, a);
  }

  // ----- whole runs

  /** The state after `actions`, if each was possible. */
  function Run<F>(s: Pump<F>, actions: seq<Action<F>>): Option<Pump<F>>
    decreases actions
  {
    if actions == [] then Some(s)
    else match Step(s, actions[0])
      case None => None
      case Some(s') => Run(s', actions[1..])
  }

  lemma {:induction false} RunKeepsInv<F>(s: Pump<F>, actions: seq<Action<F>>)
    requires Inv(s) && Run(s, actions).Some?
    ensures Inv(Run(s, actions).value)
    decreases actions
  {
    if actions != [] {
      StepKeepsInv(s, actions[0]);
      RunKeepsInv(Step(s, actions[0]).value, actions[1..]);
    }
  }

  /**
   In every interleaving: frames are processed in the order they were queued and none is lost; the
   gauge counts exactly the frames in the channel, the one being processed and the one announced, so
   taking one off never underflows; and between two of the reader's recordings the recorded maximum
   is the highest the gauge has ever been.
   */
  lemma PumpIsSafe<F>(actions: seq<Action<F>>)
    requires Run(Start<F>(), actions).Some?
    ensures var s := Run(Start<F>(), actions).value;
            && s.enqueued == s.processed + InProcess(s) + s.channel
            && Frames(s.enqueued) <= s.read
            && s.backlog == |s.channel| + Held(s) + Announced(s)
            && (s.processor.Uncounting? ==> s.backlog >= 1)
            && (!s.reader.Recording? ==> s.maxBacklog == s.peak)
            && s.maxBacklog <= s.peak && s.backlog <= s.peak
  {
    var start: Pump<F> := Start();
    assert TailBounded(start) by { assert start.enqueued[..0] == []; }
    RunKeepsInv(start, actions);
  }

  /** In every interleaving, at most 75 silence frames are queued between two real ones. */
  lemma SilenceTailIsBounded<F>(actions: seq<Action<F>>, lo: nat, hi: nat)
    requires Run(Start<F>(), actions).Some?
    requires lo + SILENCE_TAIL_FRAMES < hi <= |Run(Start<F>(), actions).value.enqueued|
    ensures exists i | lo <= i < hi :: Run(Start<F>(), actions).value.enqueued[i].Real?
  {
    var start: Pump<F> := Start();
    assert TailBounded(start) by { assert start.enqueued[..0] == []; }
    RunKeepsInv(start, actions);
    var items := Run(Start<F>(), actions).value.enqueued;
    if forall i | lo <= i < hi :: items[i].Silence? {
      SilenceAdds(items, lo, hi);
      assert false;
    }
  }

  lemma {:induction false} SilenceAdds<F>(items: seq<Item<F>>, lo: nat, hi: nat)
    requires lo <= hi <= |items| && forall i | lo <= i < hi :: items[i].Silence?
    ensures TrailingSilence(items[..hi]) >= hi - lo
    decreases hi
  {
    if lo < hi {
      assert items[..hi][..hi - 1] == items[..hi - 1];
      SilenceAdds(items, lo, hi - 1);
    }
  }

  /** A tail ends by itself only when it is complete: 75 silence frames, no fewer. */
  lemma TailIsComplete<F>(actions: seq<Action<F>>)
    requires Run(Start<F>(), actions).Some?
    requires var s := Run(Start<F>(), actions).value; s.reader.InTail? && Step(s, ReaderStep).Some?
    ensures TrailingSilence(Run(Start<F>(), actions).value.enqueued) == 75
  {
    var start: Pump<F> := Start();
    assert TailBounded(start) by { assert start.enqueued[..0] == []; }
    RunKeepsInv(start, actions);
  }

  /** One silence frame of a tail while the pump keeps running. */
  function OneSilence<F>(): seq<Action<F>> {
    [CheckRunning(true), ReaderStep, ReaderStep, ReaderStep]
  }

  function TailActions<F>(n: nat): seq<Action<F>> {
    if n == 0 then [] else OneSilence() + TailActions(n - 1)
  }

  function Silences<F>(n: nat): seq<Item<F>> {
    if n == 0 then [] else [Silence] + Silences(n - 1)
  }

  lemma {:induction false} RunJoins<F>(s: Pump<F>, a: seq<Action<F>>, b: seq<Action<F>>)
    requires Run(s, a).Some?
    ensures Run(s, a + b) == Run(Run(s, a).value, b)
    decreases a
  {
    if a == [] {
      assert a + b == b;
    } else {
      assert (a + b)[1..] == a[1..] + b;
      RunJoins(Step(s, a[0]).value, a[1..], b);
    }
  }

  lemma OneSilenceQueued<F>(s: Pump<F>)
    requires s.reader.InTail? && s.reader.tail < SILENCE_TAIL_FRAMES
    ensures var end := Run(s, OneSilence());
            end.Some? && end.value.reader == InTail(s.reader.tail + 1) && end.value.enqueued == s.enqueued + [Silence]
  {
    var actions: seq<Action<F>> := OneSilence();
    var s1 := Step(s, CheckRunning(true)).value;
    var s2 := Step(s1, ReaderStep).value;
    var s3 := Step(s2, ReaderStep).value;
    assert actions[1..] == [ReaderStep, ReaderStep, ReaderStep] && actions[1..][1..] == [ReaderStep, ReaderStep];
    var last: seq<Action<F>> := [ReaderStep];
    assert actions[1..][1..][1..] == last && last[1..] == [];
    assert Run(s, actions) == Run(s1, actions[1..]) == Run(s2, actions[1..][1..]) == Run(s3, last);
  }

  /** After a stream end, a reader that keeps running queues the whole tail. */
  lemma {:induction false} TailIsQueued<F>(s: Pump<F>, n: nat)
    requires s.reader.InTail? && s.reader.tail + n == SILENCE_TAIL_FRAMES
    ensures var end := Run(s, TailActions(n));
            && end.Some? && end.value.reader == InTail(SILENCE_TAIL_FRAMES)
            && end.value.enqueued == s.enqueued + Silences(n)
            && Step(end.value, ReaderStep).Some?
    decreases n
  {
    if n > 0 {
      OneSilenceQueued(s);
      var s' := Run(s, OneSilence()).value;
      TailIsQueued(s', n - 1);
      RunJoins(s, OneSilence(), TailActions(n - 1));
      assert s.enqueued + [Silence] + Silences(n - 1) == s.enqueued + Silences(n);
    }
  }

  /** A stream end starts the tail, but only the first one after a frame. */
  lemma StreamEndStartsTail<F>(s: Pump<F>)
    requires s.reader.Reading?
    ensures Step(s, ReadStreamEnd).Some?
    ensures Step(s, ReadStreamEnd).value.reader == if s.awaitingNextBurst then Pausing else InTail(0)
    ensures forall frame :: Step(s, ReadPcm(frame)).Some? && !Step(s, ReadPcm(frame)).value.awaitingNextBurst
  {
  }

  /** The reader ends only when it finds the pump stopped between two reads, not on errors or pauses. */
  lemma ReaderEndsWhenStopped<F>(s: Pump<F>, a: Action<F>)
    requires Step(s, a).Some? && !s.reader.ReaderEnded?
    ensures Step(s, a).value.reader.ReaderEnded? <==> s.reader.AtLoop? && a == CheckRunning(false)
  {
  }

  /** A stop cuts a tail short. */
  lemma StopCutsTail<F>(s: Pump<F>)
    requires s.reader.InTail? && s.reader.tail < SILENCE_TAIL_FRAMES
    ensures Step(s, CheckRunning(false)) == Some(s.(reader := Pausing))
    ensures Step(s.(reader := Pausing), ReaderStep) == Some(s.(reader := AtLoop))
  {
  }

  /** Whether the last read that was not an error was a stream end. */
  function LastReadEnded<F>(actions: seq<Action<F>>): bool {
    if actions == [] then false
    else match actions[|actions| - 1]
      case ReadPcm(_) => false
      case ReadStreamEnd => true
      case _ => LastReadEnded(actions[..|actions| - 1])
  }

  lemma {:induction false} RunPrefix<F>(s: Pump<F>, actions: seq<Action<F>>)
    requires actions != [] && Run(s, actions).Some?
    ensures var front := actions[..|actions| - 1];
            Run(s, front).Some? && Step(Run(s, front).value, actions[|actions| - 1]) == Run(s, actions)
    decreases actions
  {
    var s' := Step(s, actions[0]).value;
    if |actions| > 1 {
      RunPrefix(s', actions[1..]);
      assert actions[1..][..|actions| - 2] == actions[..|actions| - 1][1..];
    } else {
      assert actions[1..] == [];
    }
  }

  /** The pump waits for the next burst, and queues no second tail, exactly while the last read was a stream end. */
  lemma {:induction false} AwaitingSinceStreamEnd<F>(actions: seq<Action<F>>)
    requires Run(Start<F>(), actions).Some?
    ensures Run(Start<F>(), actions).value.awaitingNextBurst == LastReadEnded(actions)
  {
    if actions != [] {
      RunPrefix(Start<F>(), actions);
      AwaitingSinceStreamEnd(actions[..|actions| - 1]);
    }
  }

  // ----- the end

  /** When the processor ends, everything read and queued has been processed. */
  lemma NothingLeftBehind<F>(actions: seq<Action<F>>)
    requires Run(Start<F>(), actions).Some?
    requires Run(Start<F>(), actions).value.processor.ProcessorEnded?
    ensures var s := Run(Start<F>(), actions).value;
            s.processed == s.enqueued && Frames(s.processed) == s.read && s.backlog == 0
  {
    var start: Pump<F> := Start();
    assert TailBounded(start) by { assert start.enqueued[..0] == []; }
    RunKeepsInv(start, actions);
  }

  /** Processor steps left once the reader has ended. */
  function StepsLeft<F>(s: Pump<F>): nat {
    3 * |s.channel| + match s.processor
                      case Receiving => 1
                      case Processing(_) => 3
                      case Uncounting => 2
                      case ProcessorEnded => 0
  }

  function Repeated<F>(n: nat): seq<Action<F>> {
    if n == 0 then [] else [ProcessorStep] + Repeated(n - 1)
  }

  lemma DrainStep<F>(s: Pump<F>)
    requires s.reader.ReaderEnded? && !s.processor.ProcessorEnded?
    ensures var s' := Step(s, ProcessorStep);
            && s'.Some? && s'.value.reader.ReaderEnded? && s'.value.enqueued == s.enqueued
            && StepsLeft(s) == StepsLeft(s'.value) + 1
  {
  }

  lemma RepeatedRuns<F>(s: Pump<F>, n: nat)
    requires n > 0 && Step(s, ProcessorStep).Some?
    ensures Run(s, Repeated(n)) == Run(Step(s, ProcessorStep).value, Repeated(n - 1))
  {
    assert Repeated<F>(n)[1..] == Repeated<F>(n - 1);
  }

  /** Once the reader has ended, the processor is never stuck: it drains the channel, then ends. */
  lemma {:induction false} ProcessorDrains<F>(s: Pump<F>)
    requires Inv(s) && s.reader.ReaderEnded?
    ensures var end := Run(s, Repeated(StepsLeft(s)));
            end.Some? && end.value.processor.ProcessorEnded? && end.value.processed == s.enqueued
    decreases StepsLeft(s)
  {
    if !s.processor.ProcessorEnded? {
      DrainStep(s);
      StepKeepsInv(s, ProcessorStep);
      ProcessorDrains(Step(s, ProcessorStep).value);
      RepeatedRuns(s, StepsLeft(s));
    }
  }
}
