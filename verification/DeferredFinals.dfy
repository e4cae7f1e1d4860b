/**
 The output queue of a deferred-finalize transcription provider: vendor segments are collected into
 one final per utterance, and every finalize request is closed by exactly one marker.
 Times and waits are in microseconds.
 */
module DeferredFinals {
  import opened Wrappers

  datatype Transcript = Partial(text: string) | Final(text: string)

  datatype Output = Said(transcript: Transcript) | FinalizeDone

  datatype Item = Out(output: Output) | Failed(message: string)

  /** Pending finalizes are kept oldest first, by request time. */
  datatype Deferred = Deferred(queue: seq<Item>, pending: seq<int>, segments: string)

  function New(): Deferred {
    Deferred([], [], "")
  }

  // ----- text

  /** The Unicode White_Space characters. */
  predicate IsWhitespace(c: char) {
    var u := c as int;
    || 0x09 <= u <= 0x0D || u == 0x20 || u == 0x85 || u == 0xA0 || u == 0x1680
    || 0x2000 <= u <= 0x200A || u == 0x2028 || u == 0x2029 || u == 0x202F || u == 0x205F || u == 0x3000
  }

  function TrimStart(s: string): string {
    if s != "" && IsWhitespace(s[0]) then TrimStart(s[1..]) else s
  }

  function TrimEnd(s: string): string {
    if s != "" && IsWhitespace(s[|s| - 1]) then TrimEnd(s[..|s| - 1]) else s
  }

  function Trim(s: string): string {
    TrimEnd(TrimStart(s))
  }

  function Join(head: string, tail: string): string {
    if head == "" then tail else head + " " + tail
  }

  /** All segments of an utterance, separated by single spaces. */
  function JoinAll(segments: seq<string>): string {
    if segments == [] then ""
    else if |segments| == 1 then segments[0]
    else segments[0] + " " + JoinAll(segments[1..])
  }

  lemma {:induction false} JoinAllSnoc(segments: seq<string>, last: string)
    requires forall i | 0 <= i < |segments| :: segments[i] != ""
    ensures JoinAll(segments + [last]) == Join(JoinAll(segments), last)
    ensures segments != [] ==> JoinAll(segments) != ""
  {
    if |segments| > 0 {
      assert (segments + [last])[1..] == segments[1..] + [last];
      JoinAllSnoc(segments[1..], last);
    }
  }

  // ----- transitions

  function Repeat(item: Item, n: nat): seq<Item> {
    if n == 0 then [] else Repeat(item, n - 1) + [item]
  }

  /** What closing the `n` oldest finalizes queues: the text so far as one final, then `n` markers. */
  function Closing(segments: string, n: nat): seq<Item> {
    if n == 0 then []
    else (if segments != "" then [Out(Said(Final(segments)))] else []) + Repeat(Out(FinalizeDone), n)
  }

  function Close(d: Deferred, n: nat): Deferred
    requires n <= |d.pending|
  {
    Deferred(d.queue + Closing(d.segments, n), d.pending[n..], if n == 0 then d.segments else "")
  }

  predicate Expired(at: int, now: int, wait: nat) {
    (if now < at then 0 else now - at) >= wait
  }

  /** Length of the longest prefix of expired finalizes. */
  function ExpiredPrefix(pending: seq<int>, now: int, wait: nat): (n: nat)
    ensures n <= |pending|
    ensures forall i | 0 <= i < n :: Expired(pending[i], now, wait)
    ensures n < |pending| ==> !Expired(pending[n], now, wait)
  {
    if pending != [] && Expired(pending[0], now, wait) then 1 + ExpiredPrefix(pending[1..], now, wait) else 0
  }

  predicate IsTranscript(item: Item) {
    item.Out? && item.output.Said?
  }

  function WithoutTranscripts(queue: seq<Item>): seq<Item> {
    if queue == [] then []
    else (if IsTranscript(queue[0]) then [] else [queue[0]]) + WithoutTranscripts(queue[1..])
  }

  /** The queue from its first item that is not a marker. */
  function SkipMarkers(queue: seq<Item>): seq<Item> {
    if queue != [] && queue[0] == Out(FinalizeDone) then SkipMarkers(queue[1..]) else queue
  }

  datatype Op =
    | Interim(text: string)
    | Segment(text: string)
    | Request(now: int)
    | Answer
    | Fail(message: string)
    | FailWithoutAnswer(message: string)
    | Expire(now: int, wait: nat)
    | Lost(message: string)
    | DiscardTranscripts
    | NextOutput
    | NextTranscript
    | Clear

  /** How many finalizes an operation closes. */
  function Closes(d: Deferred, op: Op): (n: nat)
    ensures n <= |d.pending|
  {
    match op
    case Answer => if d.pending == [] then 0 else 1
    case Fail(_) => if d.pending == [] then 0 else 1
    case Expire(now, wait) => ExpiredPrefix(d.pending, now, wait)
    case Lost(_) => |d.pending|
    case _ => 0
  }

  predicate Idle(d: Deferred) {
    d.pending == [] && d.segments == ""
  }

  /** What an operation appends to the queue. */
  function Queues(d: Deferred, op: Op): seq<Item> {
    match op
    case Interim(text) => if Trim(text) == "" then [] else [Out(Said(Partial(Join(d.segments, Trim(text)))))]
    case Segment(text) => if Trim(text) == "" then [] else [Out(Said(Partial(Join(d.segments, Trim(text)))))]
    case Fail(message) => [Failed(message)] + Closing(d.segments, Closes(d, op))
    case FailWithoutAnswer(message) => [Failed(message)]
    case Lost(message) => if Idle(d) then [] else [Failed(message)] + Closing(d.segments, |d.pending|)
    case _ => Closing(d.segments, Closes(d, op))
  }

  function Apply(d: Deferred, op: Op): Deferred {
    match op
    case DiscardTranscripts => d.(queue := WithoutTranscripts(d.queue))
    case NextOutput => d.(queue := if d.queue == [] then [] else d.queue[1..])
    case NextTranscript => var q := SkipMarkers(d.queue); d.(queue := if q == [] then [] else q[1..])
    case Clear => New()
    case Request(now) => d.(pending := d.pending + [now])
    case _ =>
      Deferred(d.queue + Queues(d, op),
               d.pending[Closes(d, op)..],
               match op
               case Segment(text) => if Trim(text) == "" then d.segments else Join(d.segments, Trim(text))
               case Lost(_) => ""
               case _ => if Closes(d, op) > 0 then "" else d.segments)
  }

  // ----- what every operation keeps

  /** Everything since the last `Clear`: requests made, items ever queued, and the open utterance's segments. */
  datatype History = History(requests: nat, log: seq<Item>, spoken: seq<string>)

  function Record(d: Deferred, h: History, op: Op): History {
    if op.Clear? then History(0, [], [])
    else
      History(
        h.requests + if op.Request? then 1 else 0,
        h.log + Queues(d, op),
        if Closes(d, op) > 0 || op.Lost? then []
        else if op.Segment? && Trim(op.text) != "" then h.spoken + [Trim(op.text)]
        else h.spoken)
  }

  function Markers(items: seq<Item>): nat {
    if items == [] then 0 else (if items[0] == Out(FinalizeDone) then 1 else 0) + Markers(items[1..])
  }

  predicate IsFinal(item: Item) {
    item.Out? && item.output.Said? && item.output.transcript.Final?
  }

  /** Every final is directly followed by a marker. */
  ghost predicate FinalsAreMarked(items: seq<Item>) {
    forall i | 0 <= i < |items| && IsFinal(items[i]) :: i + 1 < |items| && items[i + 1] == Out(FinalizeDone)
  }

  ghost predicate Aligned(d: Deferred, h: History) {
    && h.requests == Markers(h.log) + |d.pending|
    && FinalsAreMarked(d.queue) && FinalsAreMarked(h.log)
    && (forall i | 0 <= i < |h.spoken| :: h.spoken[i] != "")
    && d.segments == JoinAll(h.spoken)
  }

  lemma {:induction false} MarkersConcat(a: seq<Item>, b: seq<Item>)
    ensures Markers(a + b) == Markers(a) + Markers(b)
  {
    if a == [] {
      assert a + b == b;
    } else {
      assert (a + b)[1..] == a[1..] + b;
      MarkersConcat(a[1..], b);
    }
  }

  lemma {:induction false} RepeatMarkers(n: nat)
    ensures |Repeat(Out(FinalizeDone), n)| == n && Markers(Repeat(Out(FinalizeDone), n)) == n
    ensures forall i | 0 <= i < n :: Repeat(Out(FinalizeDone), n)[i] == Out(FinalizeDone)
  {
    if n > 0 {
      RepeatMarkers(n - 1);
      MarkersConcat(Repeat(Out(FinalizeDone), n - 1), [Out(FinalizeDone)]);
    }
  }

  lemma ClosingMarks(segments: string, n: nat)
    ensures Markers(Closing(segments, n)) == n && FinalsAreMarked(Closing(segments, n))
  {
    RepeatMarkers(n);
    if n > 0 && segments != "" {
      var final := [Out(Said(Final(segments)))];
      assert final[1..] == [] && Closing(segments, n) == final + Repeat(Out(FinalizeDone), n);
      MarkersConcat(final, Repeat(Out(FinalizeDone), n));
    } else if n > 0 {
      assert Closing(segments, n) == Repeat(Out(FinalizeDone), n);
    }
  }

  lemma QueuesMarks(d: Deferred, op: Op)
    ensures Markers(Queues(d, op)) == Closes(d, op) && FinalsAreMarked(Queues(d, op))
  {
    var n := Closes(d, op);
    ClosingMarks(d.segments, n);
    if op.Fail? || op.Lost? {
      MarkersConcat([Failed(op.message)], Closing(d.segments, n));
    }
  }

  lemma FinalsAreMarkedConcat(a: seq<Item>, b: seq<Item>)
    requires FinalsAreMarked(a) && FinalsAreMarked(b)
    ensures FinalsAreMarked(a + b)
  {
  }

  lemma {:induction false} DiscardKeepsMarked(queue: seq<Item>)
    ensures forall item <- WithoutTranscripts(queue) :: !IsTranscript(item)
  {
    if queue != [] {
      DiscardKeepsMarked(queue[1..]);
    }
  }

  lemma {:induction false} SkipKeepsMarked(queue: seq<Item>)
    requires FinalsAreMarked(queue)
    ensures FinalsAreMarked(SkipMarkers(queue))
  {
    if queue != [] && queue[0] == Out(FinalizeDone) {
      SuffixKeepsMarked(queue, 1);
      SkipKeepsMarked(queue[1..]);
    }
  }

  lemma SuffixKeepsMarked(queue: seq<Item>, n: nat)
    requires FinalsAreMarked(queue) && n <= |queue|
    ensures FinalsAreMarked(queue[n..])
  {
    forall i | 0 <= i < |queue| - n && IsFinal(queue[n..][i])
      ensures i + 1 < |queue[n..]| && queue[n..][i + 1] == Out(FinalizeDone)
    {
      assert IsFinal(queue[n + i]);
    }
  }

  lemma QueueStaysMarked(d: Deferred, op: Op)
    requires FinalsAreMarked(d.queue)
    ensures FinalsAreMarked(Apply(d, op).queue)
  {
    match op
    case DiscardTranscripts =>
      DiscardKeepsMarked(d.queue);
      var kept := WithoutTranscripts(d.queue);
      assert forall i | 0 <= i < |kept| :: kept[i] in kept;
    case NextOutput => if d.queue != [] { SuffixKeepsMarked(d.queue, 1); }
    case NextTranscript =>
      SkipKeepsMarked(d.queue);
      if SkipMarkers(d.queue) != [] { SuffixKeepsMarked(SkipMarkers(d.queue), 1); }
    case Clear =>
    case Request(_) =>
    case _ =>
      QueuesMarks(d, op);
      FinalsAreMarkedConcat(d.queue, Queues(d, op));
  }

  /** Every operation keeps requests, markers and pending finalizes aligned, and the text right. */
  lemma StepKeepsAligned(d: Deferred, h: History, op: Op)
    requires Aligned(d, h)
    ensures Aligned(Apply(d, op), Record(d, h, op))
  {
    QueueStaysMarked(d, op);
    LogStaysMarked(d, h, op);
    TextStaysJoined(d, h, op);
  }

  lemma LogStaysMarked(d: Deferred, h: History, op: Op)
    requires h.requests == Markers(h.log) + |d.pending| && FinalsAreMarked(h.log)
    ensures var d', h' := Apply(d, op), Record(d, h, op);
            h'.requests == Markers(h'.log) + |d'.pending| && FinalsAreMarked(h'.log)
  {
    QueuesMarks(d, op);
    MarkersConcat(h.log, Queues(d, op));
    FinalsAreMarkedConcat(h.log, Queues(d, op));
  }

  lemma TextStaysJoined(d: Deferred, h: History, op: Op)
    requires (forall i | 0 <= i < |h.spoken| :: h.spoken[i] != "") && d.segments == JoinAll(h.spoken)
    ensures var d', h' := Apply(d, op), Record(d, h, op);
            (forall i | 0 <= i < |h'.spoken| :: h'.spoken[i] != "") && d'.segments == JoinAll(h'.spoken)
  {
    if op.Segment? && Trim(op.text) != "" {
      JoinAllSnoc(h.spoken, Trim(op.text));
    }
  }

  /**
   The text of a final: an operation queues at most one, exactly when it closes a finalize while an
   utterance is open, and it is the join of all the utterance's segments; its markers follow.
   */
  lemma FinalIsTheWholeUtterance(d: Deferred, h: History, op: Op)
    requires Aligned(d, h)
    ensures (exists item <- Queues(d, op) :: IsFinal(item)) <==> Closes(d, op) > 0 && h.spoken != []
    ensures forall item <- Queues(d, op) | IsFinal(item) :: item == Out(Said(Final(JoinAll(h.spoken))))
    ensures Markers(Queues(d, op)) == Closes(d, op)
  {
    QueuesMarks(d, op);
    JoinAllSnoc(h.spoken, "");
    ClosingFinals(d.segments, Closes(d, op));
    if Closes(d, op) > 0 && h.spoken != [] {
      assert Out(Said(Final(d.segments))) in Queues(d, op);
    }
  }

  lemma ClosingFinals(segments: string, n: nat)
    ensures forall item <- Closing(segments, n) | IsFinal(item) :: item == Out(Said(Final(segments)))
    ensures n > 0 && segments != "" <==> Out(Said(Final(segments))) in Closing(segments, n)
    ensures segments == "" ==> forall item <- Closing(segments, n) :: !IsFinal(item)
  {
    RepeatMarkers(n);
  }

  /** Every partial shows the whole utterance so far: its segments and the text just spoken. */
  lemma PartialShowsTheUtterance(d: Deferred, h: History, op: Op)
    requires Aligned(d, h)
    ensures forall item <- Queues(d, op) | item.Out? && item.output.Said? && item.output.transcript.Partial? ::
              (op.Interim? || op.Segment?) && item.output.transcript.text == JoinAll(h.spoken + [Trim(op.text)])
  {
    ClosingFinals(d.segments, Closes(d, op));
    RepeatMarkers(Closes(d, op));
    if op.Interim? || op.Segment? {
      JoinAllSnoc(h.spoken, Trim(op.text));
    }
  }

  /** And text that is not blank is shown: as one partial, by an interim or a segment. */
  lemma SpokenIsShown(d: Deferred, h: History, op: Op)
    requires Aligned(d, h) && (op.Interim? || op.Segment?)
    ensures Queues(d, op)
         == if Trim(op.text) == "" then [] else [Out(Said(Partial(JoinAll(h.spoken + [Trim(op.text)]))))]
    ensures op.Segment? && Trim(op.text) != "" ==> Apply(d, op).segments == JoinAll(h.spoken + [Trim(op.text)])
    ensures op.Interim? ==> Apply(d, op).segments == d.segments
  {
    JoinAllSnoc(h.spoken, Trim(op.text));
  }

  /** A failure that is told comes before the final it closes, and is the only one. */
  lemma FailureComesFirst(d: Deferred, op: Op)
    requires op.Fail? || op.FailWithoutAnswer? || (op.Lost? && !(d.pending == [] && d.segments == ""))
    ensures Queues(d, op) != [] && Queues(d, op)[0] == Failed(op.message)
    ensures forall i | 1 <= i < |Queues(d, op)| :: Queues(d, op)[i].Out?
  {
    RepeatMarkers(Closes(d, op));
  }

  /** Which operations close finalizes, and how many. */
  lemma ClosesWhen(d: Deferred, op: Op)
    ensures op.Answer? || op.Fail? ==> Closes(d, op) == if d.pending == [] then 0 else 1
    ensures op.Lost? ==> Closes(d, op) == |d.pending|
    ensures op.FailWithoutAnswer? || op.Interim? || op.Segment? ==> Closes(d, op) == 0
  {
  }

  /** Trimming takes whitespace off both ends, all of it and nothing else. */
  lemma TrimStrips(s: string) returns (lo: nat, hi: nat)
    ensures lo <= hi <= |s| && Trim(s) == s[lo..hi]
    ensures forall i | 0 <= i < lo || hi <= i < |s| :: IsWhitespace(s[i])
    ensures lo < hi ==> !IsWhitespace(s[lo]) && !IsWhitespace(s[hi - 1])
  {
    lo := TrimStartStrips(s);
    var kept := TrimEndStrips(s[lo..]);
    hi := lo + kept;
    if lo < hi {
      assert s[lo..][0] == s[lo];
    }
    forall i | hi <= i < |s| ensures IsWhitespace(s[i]) {
      assert s[i] == s[lo..][i - lo];
    }
  }

  lemma {:induction false} TrimStartStrips(s: string) returns (lo: nat)
    ensures lo <= |s| && TrimStart(s) == s[lo..] && forall i | 0 <= i < lo :: IsWhitespace(s[i])
    ensures lo < |s| ==> !IsWhitespace(s[lo])
  {
    lo := 0;
    if s != "" && IsWhitespace(s[0]) {
      var rest := TrimStartStrips(s[1..]);
      lo := rest + 1;
    }
  }

  lemma {:induction false} TrimEndStrips(s: string) returns (hi: nat)
    ensures hi <= |s| && TrimEnd(s) == s[..hi] && forall i | hi <= i < |s| :: IsWhitespace(s[i])
    ensures hi > 0 ==> !IsWhitespace(s[hi - 1])
  {
    hi := |s|;
    if s != "" && IsWhitespace(s[|s| - 1]) {
      hi := TrimEndStrips(s[..|s| - 1]);
    }
  }

  // ----- whole runs

  function Run(d: Deferred, h: History, ops: seq<Op>): (Deferred, History)
    decreases ops
  {
    if ops == [] then (d, h) else Run(Apply(d, ops[0]), Record(d, h, ops[0]), ops[1..])
  }

  lemma {:induction false} RunKeepsAligned(d: Deferred, h: History, ops: seq<Op>)
    requires Aligned(d, h)
    ensures Aligned(Run(d, h, ops).0, Run(d, h, ops).1)
    decreases ops
  {
    if ops != [] {
      StepKeepsAligned(d, h, ops[0]);
      RunKeepsAligned(Apply(d, ops[0]), Record(d, h, ops[0]), ops[1..]);
    }
  }

  /**
   Through any operations, since the last `Clear`: finalizes requested are markers ever queued plus
   those still pending, every final ever queued is directly followed by a marker, and so is every
   final still in the queue.
   */
  lemma RequestsMatchMarkers(ops: seq<Op>)
    ensures var (d, h) := Run(New(), History(0, [], []), ops);
            && h.requests == Markers(h.log) + |d.pending|
            && FinalsAreMarked(h.log) && FinalsAreMarked(d.queue)
            && d.segments == JoinAll(h.spoken)
  {
    RunKeepsAligned(New(), History(0, [], []), ops);
  }

  function Failures(items: seq<Item>): seq<string> {
    if items == [] then []
    else (if items[0].Failed? then [items[0].message] else []) + Failures(items[1..])
  }

  lemma KeptFirst(item: Item, kept: seq<Item>)
    ensures Markers([item] + kept) == Markers(kept) + if item == Out(FinalizeDone) then 1 else 0
    ensures Failures([item] + kept) == (if item.Failed? then [item.message] else []) + Failures(kept)
  {
    assert ([item] + kept)[1..] == kept;
  }

  /** Discarding drops the transcripts and nothing else: markers and failures stay, in order. */
  lemma {:induction false} DiscardDropsOnlyTranscripts(queue: seq<Item>)
    ensures var kept := WithoutTranscripts(queue);
            && Markers(kept) == Markers(queue) && Failures(kept) == Failures(queue)
            && |kept| == Markers(queue) + |Failures(queue)|
  {
    if queue != [] {
      DiscardDropsOnlyTranscripts(queue[1..]);
      var kept := WithoutTranscripts(queue[1..]);
      if IsTranscript(queue[0]) {
        assert WithoutTranscripts(queue) == [] + kept == kept;
      } else {
        KeptFirst(queue[0], kept);
      }
    }
  }

  /** Reading transcripts passes over the markers in front, and takes the item behind them. */
  lemma {:induction false} TranscriptsAreTakenInOrder(d: Deferred) returns (n: nat)
    ensures n <= |d.queue| && forall i | 0 <= i < n :: d.queue[i] == Out(FinalizeDone)
    ensures n < |d.queue| ==> d.queue[n] != Out(FinalizeDone)
    ensures SkipMarkers(d.queue) == d.queue[n..]
    ensures Apply(d, NextTranscript).queue == if n < |d.queue| then d.queue[n + 1..] else []
  {
    n := SkipStrips(d.queue);
  }

  lemma {:induction false} SkipStrips(queue: seq<Item>) returns (n: nat)
    ensures n <= |queue| && SkipMarkers(queue) == queue[n..]
    ensures forall i | 0 <= i < n :: queue[i] == Out(FinalizeDone)
    ensures n < |queue| ==> queue[n] != Out(FinalizeDone)
  {
    n := 0;
    if queue != [] && queue[0] == Out(FinalizeDone) {
      var rest := SkipStrips(queue[1..]);
      n := rest + 1;
    }
  }

  /** A clear cuts a run: what comes after it is what a new provider would do. */
  lemma {:induction false} ClearStartsAnew(d: Deferred, h: History, before: seq<Op>, after: seq<Op>)
    ensures Run(d, h, before + ([Clear] + after)) == Run(New(), History(0, [], []), after)
    decreases before
  {
    if before == [] {
      assert [] + ([Clear] + after) == [Clear] + after && ([Clear] + after)[1..] == after;
    } else {
      var all := before + ([Clear] + after);
      assert all[1..] == before[1..] + ([Clear] + after);
      ClearStartsAnew(Apply(d, before[0]), Record(d, h, before[0]), before[1..], after);
    }
  }

  /** The white space characters, by their numbers. */
  lemma WhitespaceIs(c: char)
    ensures IsWhitespace(c) <==>
      c as int in {9, 10, 11, 12, 13, 32, 133, 160, 5_760, 8_192, 8_193, 8_194, 8_195, 8_196, 8_197, 8_198, 8_199,
                   8_200, 8_201, 8_202, 8_232, 8_233, 8_239, 8_287, 12_288}
  {
  }

  // ----- expiry

  ghost predicate Ordered(pending: seq<int>) {
    forall i, j | 0 <= i < j < |pending| :: pending[i] <= pending[j]
  }

  ghost predicate NoneExpired(pending: seq<int>, now: int, wait: nat) {
    forall i | 0 <= i < |pending| :: !Expired(pending[i], now, wait)
  }

  /**
   `Expire` leaves no finalize older than the bound exactly when none of them waits behind a younger
   one, which request times in order guarantee.
   */
  lemma ExpireClosesAllExpired(d: Deferred, now: int, wait: nat)
    ensures NoneExpired(Apply(d, Expire(now, wait)).pending, now, wait)
       <==> forall i, j | 0 <= i < j < |d.pending| ::
              Expired(d.pending[j], now, wait) ==> Expired(d.pending[i], now, wait)
    ensures Ordered(d.pending) ==> NoneExpired(Apply(d, Expire(now, wait)).pending, now, wait)
  {
    var n := ExpiredPrefix(d.pending, now, wait);
    SuffixUnexpired(d.pending, n, now, wait);
    assert Apply(d, Expire(now, wait)).pending == d.pending[n..];
  }

  lemma SuffixUnexpired(pending: seq<int>, n: nat, now: int, wait: nat)
    requires n <= |pending|
    ensures NoneExpired(pending[n..], now, wait) <==> forall j | n <= j < |pending| :: !Expired(pending[j], now, wait)
  {
    assert forall j | n <= j < |pending| :: pending[j] == pending[n..][j - n];
  }

  /** How many finalizes an expiry closes, by their times: the longest prefix that is at least `wait` old. */
  lemma ExpiryClosesTheOld(d: Deferred, now: int, wait: nat)
    requires wait > 0
    ensures var left := Apply(d, Expire(now, wait)).pending;
            && |left| <= |d.pending| && left == d.pending[|d.pending| - |left|..]
            && (forall i | 0 <= i < |d.pending| - |left| :: now - d.pending[i] >= wait)
            && (left != [] ==> now - left[0] < wait)
  {
    assert Apply(d, Expire(now, wait)).pending == d.pending[ExpiredPrefix(d.pending, now, wait)..];
  }

  /** Requests whose times go backwards: the finalize of time 0 stays pending long after its bound of 5. */
  lemma ExpireCanMissUnordered(h: History)
    ensures Run(New(), h, [Request(10), Request(0), Expire(12, 5)]).0.pending == [10, 0] && Expired(0, 12, 5)
  {
    var ops := [Request(10), Request(0), Expire(12, 5)];
    var d1, h1 := Apply(New(), ops[0]), Record(New(), h, ops[0]);
    var d2, h2 := Apply(d1, ops[1]), Record(d1, h1, ops[1]);
    assert d1.pending == [10] && d2.pending == [10, 0];
    assert ops[1..] == [ops[1], ops[2]] && ops[1..][1..] == [ops[2]] && [ops[2]][1..] == [];
    assert Run(New(), h, ops) == Run(d1, h1, ops[1..]) == Run(d2, h2, [ops[2]]);
  }

  /** Requests of the run come at non-decreasing times, none before `last`. */
  predicate RequestsInOrder(ops: seq<Op>, last: int) {
    ops == [] ||
    if ops[0].Request? then last <= ops[0].now && RequestsInOrder(ops[1..], ops[0].now)
    else RequestsInOrder(ops[1..], last)
  }

  lemma StepKeepsOrdered(d: Deferred, op: Op, last: int, last': int)
    requires Ordered(d.pending) && forall i | 0 <= i < |d.pending| :: d.pending[i] <= last
    requires last <= last' && (op.Request? ==> op.now == last')
    ensures Ordered(Apply(d, op).pending)
    ensures forall i | 0 <= i < |Apply(d, op).pending| :: Apply(d, op).pending[i] <= last'
  {
    if op.Request? {
      assert Apply(d, op).pending == d.pending + [op.now];
    } else if op.Clear? {
      assert Apply(d, op).pending == [];
    } else {
      assert Apply(d, op).pending == d.pending[Closes(d, op)..];
    }
  }

  lemma {:induction false} PendingStaysOrdered(d: Deferred, h: History, ops: seq<Op>, last: int)
    requires Ordered(d.pending) && forall i | 0 <= i < |d.pending| :: d.pending[i] <= last
    requires RequestsInOrder(ops, last)
    ensures Ordered(Run(d, h, ops).0.pending)
    decreases ops
  {
    if ops != [] {
      var last' := if ops[0].Request? then ops[0].now else last;
      StepKeepsOrdered(d, ops[0], last, last');
      PendingStaysOrdered(Apply(d, ops[0]), Record(d, h, ops[0]), ops[1..], last');
    }
  }

  /** With requests made in time order, an expiry leaves nothing older than its bound. */
  lemma ExpireAfterOrderedRequests(ops: seq<Op>, first: int, now: int, wait: nat)
    requires RequestsInOrder(ops, first)
    ensures var d := Run(New(), History(0, [], []), ops).0;
            NoneExpired(Apply(d, Expire(now, wait)).pending, now, wait)
  {
    PendingStaysOrdered(New(), History(0, [], []), ops, first);
    ExpireClosesAllExpired(Run(New(), History(0, [], []), ops).0, now, wait);
  }

  /** Losing an idle connection changes nothing. */
  lemma IdleLossIsQuiet(d: Deferred, message: string)
    ensures Apply(d, Lost(message)) == d <==> Idle(d)
  {
    if Idle(d) {
      assert d.queue + [] == d.queue && d.pending[0..] == d.pending;
    } else {
      assert |Apply(d, Lost(message)).queue| > |d.queue|;
    }
  }

  // ----- the object

  class DeferredFinals {
    var queue: seq<Item>
    var pending: seq<int>
    var segments: string

    function State(): Deferred
      reads this
    {
      Deferred(queue, pending, segments)
    }

    constructor ()
      ensures State() == New()
    {
      queue, pending, segments := [], [], "";
    }

    method InterimText(text: string)
      modifies this
      ensures State() == Apply(old(State()), Interim(text))
    {
      var trimmed := Trim(text);
      if trimmed != "" {
        queue := queue + [Out(Said(Partial(Join(segments, trimmed))))];
      }
    }

    method FinalSegment(text: string)
      modifies this
      ensures State() == Apply(old(State()), Segment(text))
    {
      var trimmed := Trim(text);
      if trimmed != "" {
        segments := Join(segments, trimmed);
        queue := queue + [Out(Said(Partial(segments)))];
      }
    }

    method RequestFinalize(now: int)
      modifies this
      ensures State() == Apply(old(State()), Request(now))
    {
      pending := pending + [now];
    }

    method AnswerOldest() returns (answered: bool)
      modifies this
      ensures answered <==> old(pending) != []
      ensures State() == Apply(old(State()), Answer)
      ensures State() == Close(old(State()), if answered then 1 else 0)
    {
      if pending == [] {
        return false;
      }
      pending := pending[1..];
      Flush();
      queue := queue + [Out(FinalizeDone)];
      answered := true;
      assert Repeat(Out(FinalizeDone), 1) == [Out(FinalizeDone)];
    }

    /** Queues the open utterance as one final. */
    method Flush()
      modifies `queue, `segments
      ensures segments == ""
      ensures queue == old(queue) + if old(segments) != "" then [Out(Said(Final(old(segments))))] else []
    {
      if segments != "" {
        queue := queue + [Out(Said(Final(segments)))];
        segments := "";
      }
    }

    method FailOldest(message: string)
      modifies this
      ensures State() == Apply(old(State()), Fail(message))
    {
      queue := queue + [Failed(message)];
      if pending != [] {
        pending := pending[1..];
        Flush();
        queue := queue + [Out(FinalizeDone)];
        assert Repeat(Out(FinalizeDone), 1) == [Out(FinalizeDone)];
      }
    }

    method FailUnanswered(message: string)
      modifies this
      ensures State() == Apply(old(State()), FailWithoutAnswer(message))
    {
      queue := queue + [Failed(message)];
    }

    /** Answering one by one is closing the whole expired prefix at once. */
    method ExpireOld(now: int, wait: nat)
      modifies this
      ensures State() == Apply(old(State()), Expire(now, wait))
    {
      ghost var n := ExpiredPrefix(pending, now, wait);
      ghost var k := 0;
      ghost var d := State();
      while pending != [] && Expired(pending[0], now, wait)
        invariant k <= n && State() == Close(d, k)
        decreases |pending|
      {
        assert pending[0] == d.pending[k] && k < n;
        CloseOneMore(d, k);
        var _ := AnswerOldest();
        k := k + 1;
      }
    }

    method ConnectionLost(message: string)
      modifies this
      ensures State() == Apply(old(State()), Lost(message))
    {
      if pending == [] && segments == "" {
        return;
      }
      queue := queue + [Failed(message)];
      if pending == [] {
        segments := "";
        return;
      }
      ghost var k := 0;
      ghost var d := State();
      var more := true;
      while more
        invariant k <= |d.pending| && State() == Close(d, k)
        invariant !more ==> k == |d.pending|
        decreases |pending|, more
      {
        if k < |d.pending| {
          CloseOneMore(d, k);
        }
        more := AnswerOldest();
        k := if more then k + 1 else k;
      }
    }

    method Discard() returns (dropped: nat)
      modifies this
      ensures State() == Apply(old(State()), DiscardTranscripts)
      ensures dropped == |old(queue)| - |queue|
    {
      var before := |queue|;
      KeepsAtMost(queue);
      queue := WithoutTranscripts(queue);
      dropped := before - |queue|;
    }

    method ClearAll()
      modifies this
      ensures State() == Apply(old(State()), Clear)
    {
      queue, pending, segments := [], [], "";
    }

    method NextOut() returns (r: Result<Option<Output>, string>)
      modifies this
      ensures State() == Apply(old(State()), NextOutput)
      ensures r == Polled(old(queue))
      ensures r.Failure? <==> old(queue) != [] && old(queue)[0].Failed?
      ensures r.Failure? ==> r.error == old(queue)[0].message
      ensures r.Success? ==> (r.value.None? <==> old(queue) == [])
    {
      if queue == [] {
        return Success(None);
      }
      var item := queue[0];
      queue := queue[1..];
      match item
      case Failed(message) => r := Failure(message);
      case Out(output) => r := Success(Some(output));
    }

    /** Like `NextOut`, passing over markers. */
    method NextSaid() returns (r: Result<Option<Transcript>, string>)
      modifies this
      ensures State() == Apply(old(State()), NextTranscript)
      ensures match Polled(SkipMarkers(old(queue)))
              case Success(None) => r == Success(None)
              case Success(Some(output)) => output.Said? && r == Success(Some(output.transcript))
              case Failure(message) => r == Failure(message)
    {
      while true
        invariant SkipMarkers(queue) == SkipMarkers(old(queue))
        invariant pending == old(pending) && segments == old(segments)
        decreases |queue|
      {
        if queue == [] {
          return Success(None);
        }
        var item := queue[0];
        queue := queue[1..];
        match item
        case Failed(message) => return Failure(message);
        case Out(Said(t)) => return Success(Some(t));
        case Out(FinalizeDone) =>
      }
    }
  }

  /** The answer of a poll that finds `queue`. */
  function Polled(queue: seq<Item>): (r: Result<Option<Output>, string>)
    ensures queue != [] && queue[0].Failed? <==> r.Failure?
    ensures r.Failure? ==> queue[0] == Failed(r.error)
    ensures r.Success? && r.value.Some? ==> queue != [] && queue[0] == Out(r.value.value)
    ensures r == Success(None) <==> queue == []
  {
    if queue == [] then Success(None)
    else match queue[0]
      case Failed(message) => Failure(message)
      case Out(output) => Success(Some(output))
  }

  lemma {:induction false} KeepsAtMost(queue: seq<Item>)
    ensures |WithoutTranscripts(queue)| <= |queue|
  {
    if queue != [] {
      KeepsAtMost(queue[1..]);
    }
  }

  /** Closing one more finalize only adds its marker. */
  lemma Regroup(queue: seq<Item>, final: seq<Item>, markers: seq<Item>, last: seq<Item>)
    ensures queue + (final + markers) + last == queue + (final + (markers + last))
  {
  }

  lemma CloseOneMore(d: Deferred, k: nat)
    requires k < |d.pending|
    ensures Close(Close(d, k), 1) == Close(d, k + 1)
  {
    var marker := Out(FinalizeDone);
    assert Repeat(marker, 1) == Repeat(marker, 0) + [marker] == [marker];
    assert d.pending[k..][1..] == d.pending[k + 1..];
    if k > 0 {
      assert Closing("", 1) == [marker];
      Regroup(d.queue, if d.segments != "" then [Out(Said(Final(d.segments)))] else [], Repeat(marker, k), [marker]);
    } else {
      assert d.queue + Closing(d.segments, 0) == d.queue;
    }
  }
}
