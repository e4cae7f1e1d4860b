/**
 The speech event bus.  Its meaning is one log: events in emission order, with a hole for every final
 that still waits for its speaker verdict; what has been delivered is the log's longest hole-free
 prefix.  The bus itself keeps only the undelivered rest as a queue.
 */
module EventBus {
  import opened Wrappers
  import opened Sequences

  /** Slot 0 is an ordinary event; a reserved slot has no event until its final is filled in. */
  datatype Entry<E> = Entry(slot: nat, event: Option<E>)

  datatype Log<E> = Log(entries: seq<Entry<E>>, nextSlot: nat, beforeSlot: Option<nat>)

  /** Length of the longest hole-free prefix. */
  function Ready<E>(entries: seq<Entry<E>>): (n: nat)
    ensures n <= |entries|
    ensures forall i | 0 <= i < n :: entries[i].event.Some?
    ensures n < |entries| ==> entries[n].event.None?
  {
    if entries == [] || entries[0].event.None? then 0 else 1 + Ready(entries[1..])
  }

  function EventsOf<E>(entries: seq<Entry<E>>): seq<E> {
    if entries == [] then []
    else (if entries[0].event.Some? then [entries[0].event.value] else []) + EventsOf(entries[1..])
  }

  function Delivered<E>(l: Log<E>): seq<E> {
    EventsOf(l.entries[..Ready(l.entries)])
  }

  /** The first entry of `slot` among those from `from` on. */
  function Find<E>(entries: seq<Entry<E>>, from: nat, slot: nat): (p: Option<nat>)
    requires from <= |entries|
    ensures p.Some? ==> from <= p.value < |entries| && entries[p.value].slot == slot
    ensures p.Some? ==> forall i | from <= i < p.value :: entries[i].slot != slot
    ensures p.None? ==> forall i | from <= i < |entries| :: entries[i].slot != slot
    decreases |entries| - from
  {
    if from == |entries| then None
    else if entries[from].slot == slot then Some(from)
    else Find(entries, from + 1, slot)
  }

  function FindUndelivered<E>(l: Log<E>, slot: nat): Option<nat> {
    Find(l.entries, Ready(l.entries), slot)
  }

  function Insert<E>(entries: seq<Entry<E>>, pos: nat, e: Entry<E>): seq<Entry<E>>
    requires pos <= |entries|
  {
    entries[..pos] + [e] + entries[pos..]
  }

  datatype Op<E> = Emit(event: E) | SetBefore(before: Option<nat>) | Reserve | Fill(slot: nat, event: E)

  /** Where an emitted event lands: at the end, or before the slot set with `SetBefore` while it is undelivered. */
  function Landing<E>(l: Log<E>): (p: nat)
    ensures p <= |l.entries|
  {
    if l.beforeSlot.None? then |l.entries|
    else match FindUndelivered(l, l.beforeSlot.value)
      case Some(p) => p
      case None => |l.entries|
  }

  function Apply<E>(l: Log<E>, op: Op<E>): Log<E> {
    match op
    case Emit(event) => l.(entries := Insert(l.entries, Landing(l), Entry(0, Some(event))))
    case SetBefore(slot) => l.(beforeSlot := slot)
    case Reserve => l.(nextSlot := l.nextSlot + 1, entries := l.entries + [Entry(l.nextSlot + 1, None)])
    case Fill(slot, event) =>
      match FindUndelivered(l, slot)
      case Some(p) => l.(entries := l.entries[p := Entry(slot, Some(event))])
      case None => l
  }

  function Run<E>(l: Log<E>, ops: seq<Op<E>>): Log<E>
    decreases ops
  {
    if ops == [] then l else Run(Apply(l, ops[0]), ops[1..])
  }

  function Start<E>(): Log<E> {
    Log([], 0, None)
  }

  // ----- nothing is lost or reordered

  /** `slot` waits for its final: its first undelivered entry is a hole. */
  predicate IsOpen<E>(l: Log<E>, slot: nat) {
    var p := FindUndelivered(l, slot);
    p.Some? && l.entries[p.value].event.None?
  }

  function Given<E>(op: Op<E>): seq<E> {
    match op
    case Emit(e) => [e]
    case Fill(_, e) => [e]
    case _ => []
  }

  lemma {:induction false} EventsOfConcat<E>(a: seq<Entry<E>>, b: seq<Entry<E>>)
    ensures EventsOf(a + b) == EventsOf(a) + EventsOf(b)
  {
    if a == [] {
      assert a + b == b;
    } else {
      var first := if a[0].event.Some? then [a[0].event.value] else [];
      assert (a + b)[0] == a[0] && (a + b)[1..] == a[1..] + b;
      EventsOfConcat(a[1..], b);
      Associative(first, EventsOf(a[1..]), EventsOf(b));
    }
  }

  lemma EventsOfInsert<E>(entries: seq<Entry<E>>, p: nat, e: Entry<E>)
    requires p <= |entries|
    ensures multiset(EventsOf(Insert(entries, p, e))) == multiset(EventsOf(entries)) + multiset(EventsOf([e]))
  {
    var front, back := entries[..p], entries[p..];
    assert entries == front + back;
    EventsOfConcat(front + [e], back);
    EventsOfConcat(front, [e]);
    EventsOfConcat(front, back);
  }

  /** An entry is one among the others, wherever it is. */
  lemma EventsOfUpdate<E>(entries: seq<Entry<E>>, p: nat, e: Entry<E>)
    requires p < |entries|
    ensures multiset(EventsOf(entries[p := e])) + multiset(EventsOf([entries[p]]))
         == multiset(EventsOf(entries)) + multiset(EventsOf([e]))
  {
    UpdateIsInsert(entries, p, e);
    EventsOfInsert(Without(entries, p), p, entries[p]);
    EventsOfInsert(Without(entries, p), p, e);
  }

  lemma UpdateIsInsert<E>(entries: seq<Entry<E>>, p: nat, e: Entry<E>)
    requires p < |entries|
    ensures Insert(Without(entries, p), p, entries[p]) == entries
    ensures Insert(Without(entries, p), p, e) == entries[p := e]
  {
  }

  lemma EventsOfOne<E>(e: Entry<E>)
    ensures EventsOf([e]) == if e.event.Some? then [e.event.value] else []
  {
    assert [e][1..] == [];
  }

  /**
   One operation keeps every event and adds the given one, with a single exception: filling a slot
   that is not open drops the given final, or replaces the event it finds there.
   */
  lemma EventsKept<E>(l: Log<E>, op: Op<E>)
    ensures var before, after := multiset(EventsOf(l.entries)), multiset(EventsOf(Apply(l, op).entries));
            after == before + multiset(Given(op)) <==> (op.Fill? ==> IsOpen(l, op.slot))
  {
    var entries := l.entries;
    match op
    case Emit(event) =>
      EventsOfInsert(entries, Landing(l), Entry(0, Some(event)));
      EventsOfOne(Entry(0, Some(event)));
    case SetBefore(_) =>
    case Reserve =>
      EventsOfConcat(entries, [Entry(l.nextSlot + 1, None)]);
      EventsOfOne<E>(Entry(l.nextSlot + 1, None));
    case Fill(slot, event) =>
      var found := FindUndelivered(l, slot);
      if found.Some? {
        FillCounts(entries, found.value, slot, event);
      } else {
        FilledCount(multiset(EventsOf(entries)), multiset(EventsOf(entries)), event, Some(event));
      }
  }

  lemma FillCounts<E>(entries: seq<Entry<E>>, p: nat, slot: nat, event: E)
    requires p < |entries|
    ensures multiset(EventsOf(entries[p := Entry(slot, Some(event))])) == multiset(EventsOf(entries)) + multiset{event}
       <==> entries[p].event.None?
  {
    var e := Entry(slot, Some(event));
    EventsOfUpdate(entries, p, e);
    EventsOfOne(entries[p]);
    EventsOfOne(e);
    FilledCount(multiset(EventsOf(entries)), multiset(EventsOf(entries[p := e])), event, entries[p].event);
  }

  /** Trading one event for another is not adding one. */
  lemma FilledCount<E>(before: multiset<E>, after: multiset<E>, added: E, removed: Option<E>)
    requires removed.Some? ==> after + multiset{removed.value} == before + multiset{added}
    requires removed.None? ==> after == before + multiset{added}
    ensures after == before + multiset{added} <==> removed.None?
  {
    if removed.Some? {
      assert |after| + 1 == |before| + 1;
    }
  }

  /** Every `Fill` of the run is of a slot that is open at that time. */
  predicate FillsOpenSlots<E>(l: Log<E>, ops: seq<Op<E>>)
    decreases ops
  {
    ops == [] || ((ops[0].Fill? ==> IsOpen(l, ops[0].slot)) && FillsOpenSlots(Apply(l, ops[0]), ops[1..]))
  }

  function AllGiven<E>(ops: seq<Op<E>>): seq<E> {
    if ops == [] then [] else Given(ops[0]) + AllGiven(ops[1..])
  }

  /**
   `where` says at which position of `after` each entry of `before` is: order, slots and events are
   kept, only holes may have been filled.
   */
  ghost predicate Tracks<E>(before: Log<E>, after: Log<E>, where: seq<nat>) {
    && |where| == |before.entries|
    && (forall i | 0 <= i < |where| ::
          where[i] < |after.entries| && SameEntry(before.entries[i], after.entries[where[i]]))
    && (forall i, j | 0 <= i < j < |where| :: where[i] < where[j])
  }

  ghost predicate SameEntry<E>(e: Entry<E>, e': Entry<E>) {
    e'.slot == e.slot && (e.event.Some? ==> e' == e)
  }

  lemma StepTracks<E>(l: Log<E>, op: Op<E>) returns (where: seq<nat>)
    requires op.Fill? ==> IsOpen(l, op.slot)
    ensures Tracks(l, Apply(l, op), where)
  {
    match op
    case Emit(event) => where := InsertTracks(l, Apply(l, op), Landing(l), Entry(0, Some(event)));
    case _ => where := seq(|l.entries|, i => i);
  }

  lemma InsertTracks<E>(l: Log<E>, l': Log<E>, p: nat, e: Entry<E>) returns (where: seq<nat>)
    requires p <= |l.entries| && l'.entries == Insert(l.entries, p, e)
    ensures Tracks(l, l', where)
  {
    where := seq(|l.entries|, i requires 0 <= i < |l.entries| => if i < p then i else i + 1);
  }

  lemma TracksCompose<E>(a: Log<E>, b: Log<E>, c: Log<E>, first: seq<nat>, rest: seq<nat>) returns (where: seq<nat>)
    requires Tracks(a, b, first) && Tracks(b, c, rest)
    ensures Tracks(a, c, where)
  {
    where := seq(|first|, i requires 0 <= i < |first| => rest[first[i]]);
  }

  /** Over a whole run no event is lost or duplicated. */
  lemma {:induction false} RunKeepsEvents<E>(l: Log<E>, ops: seq<Op<E>>)
    requires FillsOpenSlots(l, ops)
    ensures multiset(EventsOf(Run(l, ops).entries)) == multiset(EventsOf(l.entries)) + multiset(AllGiven(ops))
    decreases ops
  {
    if ops != [] {
      EventsKept(l, ops[0]);
      RunKeepsEvents(Apply(l, ops[0]), ops[1..]);
    }
  }

  /** An operation adds as many events as it is given, one less when it fills a slot that is not open. */
  lemma StepCount<E>(l: Log<E>, op: Op<E>)
    ensures |EventsOf(Apply(l, op).entries)| + (if op.Fill? && !IsOpen(l, op.slot) then 1 else 0)
         == |EventsOf(l.entries)| + |Given(op)|
  {
    var before, after := multiset(EventsOf(l.entries)), multiset(EventsOf(Apply(l, op).entries));
    if op.Fill? && !IsOpen(l, op.slot) {
      var p := FindUndelivered(l, op.slot);
      if p.Some? {
        var found, filled := l.entries[p.value], Entry(op.slot, Some(op.event));
        EventsOfUpdate(l.entries, p.value, filled);
        EventsOfOne(found);
        EventsOfOne(filled);
        assert after + multiset{found.event.value} == before + multiset{op.event};
        assert |after + multiset{found.event.value}| == |before + multiset{op.event}|;
      }
    } else {
      EventsKept(l, op);
      assert |after| == |before| + |multiset(Given(op))|;
    }
  }

  lemma {:induction false} RunCount<E>(l: Log<E>, ops: seq<Op<E>>)
    ensures |EventsOf(Run(l, ops).entries)| <= |EventsOf(l.entries)| + |AllGiven(ops)|
    ensures |EventsOf(Run(l, ops).entries)| == |EventsOf(l.entries)| + |AllGiven(ops)| <==> FillsOpenSlots(l, ops)
    decreases ops
  {
    if ops != [] {
      StepCount(l, ops[0]);
      RunCount(Apply(l, ops[0]), ops[1..]);
    }
  }

  /** Over a whole run of a new bus no event is lost or duplicated exactly when each fill is of its own slot. */
  lemma EventsKeptInRun<E>(ops: seq<Op<E>>)
    ensures multiset(EventsOf(Run(Start<E>(), ops).entries)) == multiset(AllGiven(ops))
       <==> FillsReservedOnce(ops, 0, {})
  {
    OpenMeansReservedOnce(ops);
    RunCount(Start<E>(), ops);
    if FillsOpenSlots(Start<E>(), ops) {
      RunKeepsEvents(Start<E>(), ops);
    } else {
      assert |multiset(EventsOf(Run(Start<E>(), ops).entries))| < |multiset(AllGiven(ops))|;
    }
  }

  /** Over a whole run no two entries change their order. */
  lemma {:induction false} RunTracks<E>(l: Log<E>, ops: seq<Op<E>>) returns (where: seq<nat>)
    requires FillsOpenSlots(l, ops)
    ensures Tracks(l, Run(l, ops), where)
    decreases ops
  {
    if ops == [] {
      where := seq(|l.entries|, i => i);
    } else {
      var first := StepTracks(l, ops[0]);
      var rest := RunTracks(Apply(l, ops[0]), ops[1..]);
      where := TracksCompose(l, Apply(l, ops[0]), Run(l, ops), first, rest);
    }
  }

  /**
   No overtaking: an event behind an open slot is delivered only after that slot's final has been
   filled in and delivered before it, whatever happens meanwhile.
   */
  lemma {:induction false} FinalComesFirst<E>(l: Log<E>, ops: seq<Op<E>>, slotAt: nat, eventAt: nat)
    returns (slotAt': nat, eventAt': nat)
    requires FillsOpenSlots(l, ops)
    requires slotAt < eventAt < |l.entries| && l.entries[slotAt].event.None?
    ensures var l' := Run(l, ops);
            && slotAt' < eventAt' < |l'.entries|
            && SameEntry(l.entries[slotAt], l'.entries[slotAt'])
            && SameEntry(l.entries[eventAt], l'.entries[eventAt'])
            && (eventAt' < Ready(l'.entries) ==> slotAt' < Ready(l'.entries) && l'.entries[slotAt'].event.Some?)
  {
    var where := RunTracks(l, ops);
    slotAt', eventAt' := where[slotAt], where[eventAt];
  }

  /** An emitted event lands behind every undelivered entry, or right before the slot it was asked to precede. */
  lemma EmitLands<E>(l: Log<E>, event: E)
    ensures var l' := Apply(l, Emit(event));
            var p := Landing(l);
            && l'.entries[p] == Entry(0, Some(event))
            && l'.entries[..p] == l.entries[..p] && l'.entries[p + 1..] == l.entries[p..]
            && Ready(l.entries) <= p
            && (p < |l.entries| <==> l.beforeSlot.Some? && FindUndelivered(l, l.beforeSlot.value).Some?)
            && (p < |l.entries| ==> l.entries[p].slot == l.beforeSlot.value)
  {
  }

  lemma ReadyStays<E>(l: Log<E>, op: Op<E>)
    ensures var n, entries := Ready(l.entries), Apply(l, op).entries;
            n <= |entries| && forall i | 0 <= i < n :: entries[i] == l.entries[i]
  {
  }

  lemma EventsOfPrefix<E>(entries: seq<Entry<E>>, n: nat, m: nat)
    requires n <= m <= |entries|
    ensures EventsOf(entries[..n]) <= EventsOf(entries[..m])
  {
    var front, more := entries[..n], entries[n..m];
    assert entries[..m] == front + more;
    EventsOfConcat(front, more);
  }

  /** What has been delivered stays delivered, in the same order. */
  lemma DeliveredGrows<E>(l: Log<E>, op: Op<E>)
    ensures Delivered(l) <= Delivered(Apply(l, op))
  {
    var n, entries := Ready(l.entries), Apply(l, op).entries;
    ReadyStays(l, op);
    assert entries[..n] == l.entries[..n];
    ReadyAtLeast(entries, n);
    EventsOfPrefix(entries, n, Ready(entries));
  }

  lemma {:induction false} ReadyAtLeast<E>(entries: seq<Entry<E>>, n: nat)
    requires n <= |entries| && forall i | 0 <= i < n :: entries[i].event.Some?
    ensures n <= Ready(entries)
  {
  }

  /** Every reserved slot has one entry, numbered from 1, and an ordinary entry always has its event. */
  ghost predicate SlotsUnique<E>(l: Log<E>) {
    && (forall i | 0 <= i < |l.entries| ::
          l.entries[i].slot <= l.nextSlot && (l.entries[i].slot == 0 ==> l.entries[i].event.Some?))
    && (forall i, j | 0 <= i < j < |l.entries| && l.entries[i].slot == l.entries[j].slot :: l.entries[i].slot == 0)
  }

  /** Any run, whatever it fills, keeps slots unique: a hole is filled by its own final only. */
  lemma {:induction false} RunKeepsSlotsUnique<E>(l: Log<E>, ops: seq<Op<E>>)
    requires SlotsUnique(l)
    ensures SlotsUnique(Run(l, ops))
    decreases ops
  {
    if ops != [] {
      StepKeepsSlotsUnique(l, ops[0]);
      RunKeepsSlotsUnique(Apply(l, ops[0]), ops[1..]);
    }
  }

  lemma StepKeepsSlotsUnique<E>(l: Log<E>, op: Op<E>)
    requires SlotsUnique(l)
    ensures SlotsUnique(Apply(l, op))
  {
    match op
    case Emit(event) => InsertKeepsUnique(l, Landing(l), event);
    case SetBefore(_) =>
    case Reserve =>
    case Fill(slot, event) =>
      var p := FindUndelivered(l, slot);
      if p.Some? {
        UpdateKeepsUnique(l, p.value, Entry(slot, Some(event)));
      }
  }

  lemma InsertKeepsUnique<E>(l: Log<E>, p: nat, event: E)
    requires SlotsUnique(l) && p <= |l.entries|
    ensures SlotsUnique(l.(entries := Insert(l.entries, p, Entry(0, Some(event)))))
  {
    var entries := Insert(l.entries, p, Entry(0, Some(event)));
    assert forall i | 0 <= i < |entries| ::
      entries[i] == if i < p then l.entries[i] else if i == p then Entry(0, Some(event)) else l.entries[i - 1];
  }

  lemma UpdateKeepsUnique<E>(l: Log<E>, p: nat, e: Entry<E>)
    requires SlotsUnique(l) && p < |l.entries| && e.slot == l.entries[p].slot && e.event.Some?
    ensures SlotsUnique(l.(entries := l.entries[p := e]))
  {
  }

  /** A new slot is a number no entry has, and its hole is the one its fill will find. */
  lemma ReservedSlotIsOpen<E>(l: Log<E>)
    requires SlotsUnique(l)
    ensures var l' := Apply(l, Reserve);
            && IsOpen(l', l'.nextSlot) && FindUndelivered(l', l'.nextSlot) == Some(|l.entries|)
            && forall i | 0 <= i < |l.entries| :: l.entries[i].slot != l'.nextSlot
  {
    var l' := Apply(l, Reserve);
    assert l'.entries[|l.entries|] == Entry(l.nextSlot + 1, None);
  }

  // ----- which fills are of open slots

  /**
   Each fill of the calls is of a slot number handed out by an earlier reservation and not filled since.
   `reserved` and `filled` are the reservations and fills made before.
   */
  predicate FillsReservedOnce<E>(ops: seq<Op<E>>, reserved: nat, filled: set<nat>)
    decreases ops
  {
    ops == [] ||
    match ops[0]
    case Reserve => FillsReservedOnce(ops[1..], reserved + 1, filled)
    case Fill(slot, _) =>
      1 <= slot <= reserved && slot !in filled && FillsReservedOnce(ops[1..], reserved, filled + {slot})
    case _ => FillsReservedOnce(ops[1..], reserved, filled)
  }

  /** The holes of the log are the slots reserved and not yet filled. */
  ghost predicate HolesAre<E>(l: Log<E>, reserved: nat, filled: set<nat>) {
    && SlotsUnique(l) && l.nextSlot == reserved
    && (forall slot | slot in filled :: slot <= reserved)
    && (forall slot: nat :: Entry(slot, None) in l.entries <==> 1 <= slot <= reserved && slot !in filled)
  }

  lemma OpenIsHole<E>(l: Log<E>, slot: nat)
    requires SlotsUnique(l)
    ensures IsOpen(l, slot) <==> Entry(slot, None) in l.entries
  {
    if Entry(slot, None) in l.entries {
      var i :| 0 <= i < |l.entries| && l.entries[i] == Entry(slot, None);
      assert Ready(l.entries) <= i;
    }
  }

  lemma FillLeavesOtherHoles<E>(l: Log<E>, p: nat, event: E, slot: nat)
    requires SlotsUnique(l) && p < |l.entries| && l.entries[p].event.None?
    ensures Entry(slot, None) in l.entries[p := Entry(l.entries[p].slot, Some(event))]
       <==> Entry(slot, None) in l.entries && slot != l.entries[p].slot
  {
    var filled := l.entries[p := Entry(l.entries[p].slot, Some(event))];
    if Entry(slot, None) in l.entries && slot != l.entries[p].slot {
      var i :| 0 <= i < |l.entries| && l.entries[i] == Entry(slot, None);
      assert filled[i] == Entry(slot, None);
    }
  }

  lemma InsertKeepsHoles<E>(entries: seq<Entry<E>>, p: nat, event: E, slot: nat)
    requires p <= |entries|
    ensures Entry(slot, None) in Insert(entries, p, Entry(0, Some(event))) <==> Entry(slot, None) in entries
  {
    assert entries == entries[..p] + entries[p..];
  }

  lemma StepKeepsHoles<E>(l: Log<E>, op: Op<E>, reserved: nat, filled: set<nat>)
    requires HolesAre(l, reserved, filled)
    requires op.Fill? ==> IsOpen(l, op.slot)
    ensures HolesAre(Apply(l, op), if op.Reserve? then reserved + 1 else reserved,
                     if op.Fill? then filled + {op.slot} else filled)
  {
    StepKeepsSlotsUnique(l, op);
    match op
    case Emit(event) =>
      forall slot: nat ensures Entry(slot, None) in Apply(l, op).entries <==> Entry(slot, None) in l.entries {
        InsertKeepsHoles(l.entries, Landing(l), event, slot);
      }
    case SetBefore(_) =>
    case Reserve =>
    case Fill(slot, event) =>
      OpenIsHole(l, slot);
      forall s: nat ensures Entry(s, None) in Apply(l, op).entries <==> Entry(s, None) in l.entries && s != slot {
        FillLeavesOtherHoles(l, FindUndelivered(l, slot).value, event, s);
      }
  }

  lemma {:induction false} FillsOpenFrom<E>(l: Log<E>, ops: seq<Op<E>>, reserved: nat, filled: set<nat>)
    requires HolesAre(l, reserved, filled)
    ensures FillsOpenSlots(l, ops) <==> FillsReservedOnce(ops, reserved, filled)
    decreases ops
  {
    if ops != [] {
      var op := ops[0];
      if op.Fill? {
        OpenIsHole(l, op.slot);
      }
      if op.Fill? ==> IsOpen(l, op.slot) {
        StepKeepsHoles(l, op, reserved, filled);
        FillsOpenFrom(Apply(l, op), ops[1..], if op.Reserve? then reserved + 1 else reserved,
                      if op.Fill? then filled + {op.slot} else filled);
      }
    }
  }

  /**
   On a new bus every fill finds its slot open exactly when the callers fill each reserved number at most
   once and no other: a matter of the calls alone, not of what the queue holds.
   */
  lemma OpenMeansReservedOnce<E>(ops: seq<Op<E>>)
    ensures FillsOpenSlots(Start<E>(), ops) <==> FillsReservedOnce(ops, 0, {})
  {
    FillsOpenFrom(Start<E>(), ops, 0, {});
  }

  lemma RunFirst<E>(l: Log<E>, op: Op<E>, rest: seq<Op<E>>)
    ensures Run(l, [op] + rest) == Run(Apply(l, op), rest)
  {
    assert ([op] + rest)[1..] == rest;
  }

  /** A log of two reserved slots. */
  function TwoSlots(first: Option<int>, second: Option<int>): Log<int> {
    Log([Entry(1, first), Entry(2, second)], 2, None)
  }

  lemma TwoSlotsFilled(first: Option<int>, second: Option<int>, event: int)
    ensures first.None? ==> Apply(TwoSlots(first, second), Fill(2, event)) == TwoSlots(first, Some(event))
    ensures first.None? ==> Apply(TwoSlots(first, second), Fill(1, event)) == TwoSlots(Some(event), second)
  {
    var l := TwoSlots(first, second);
    assert first.None? ==> Ready(l.entries) == 0;
    assert l.entries[1 := Entry(2, Some(event))] == TwoSlots(first, Some(event)).entries;
    assert l.entries[0 := Entry(1, Some(event))] == TwoSlots(Some(event), second).entries;
  }

  lemma TwoSlotsReserved()
    ensures Apply(Apply(Start<int>(), Reserve), Reserve) == TwoSlots(None, None)
  {
  }

  lemma TwoSlotsDelivered(first: int, second: int)
    ensures Delivered(TwoSlots(Some(first), Some(second))) == [first, second]
  {
    var e1, e2 := Entry(1, Some(first)), Entry(2, Some(second));
    var entries := TwoSlots(Some(first), Some(second)).entries;
    assert entries == [e1] + [e2] && entries[1..] == [e2] && entries[1..][1..] == [];
    assert entries[..2] == entries;
    EventsOfConcat([e1], [e2]);
    EventsOfOne(e1);
    EventsOfOne(e2);
  }

  /** A slot filled twice while it is queued: the first final is overwritten and never delivered. */
  lemma SecondFillOverwrites()
    ensures Delivered(Run(Start<int>(), [Reserve, Reserve, Fill(2, 20), Fill(2, 21), Fill(1, 10)])) == [10, 21]
  {
    var fills: seq<Op<int>> := [Fill(2, 20)] + ([Fill(2, 21)] + ([Fill(1, 10)] + []));
    assert [Reserve, Reserve, Fill(2, 20), Fill(2, 21), Fill(1, 10)] == [Reserve] + ([Reserve] + fills);
    RunFirst(Start<int>(), Reserve, [Reserve] + fills);
    RunFirst(Apply(Start<int>(), Reserve), Reserve, fills);
    TwoSlotsReserved();
    RunFirst(TwoSlots(None, None), Fill(2, 20), [Fill(2, 21)] + ([Fill(1, 10)] + []));
    TwoSlotsFilled(None, None, 20);
    RunFirst(TwoSlots(None, Some(20)), Fill(2, 21), [Fill(1, 10)] + []);
    TwoSlotsFilled(None, Some(20), 21);
    RunFirst(TwoSlots(None, Some(21)), Fill(1, 10), []);
    TwoSlotsFilled(None, Some(21), 10);
    TwoSlotsDelivered(10, 21);
  }

  /** Filling a slot that was never reserved drops the final. */
  lemma UnreservedFillIsDropped<E>(slot: nat, event: E)
    ensures Apply(Start<E>(), Fill(slot, event)) == Start<E>()
  {
  }

  // ----- where events go, by the calls alone

  /** The slot last given to `SetBefore`. */
  function LastBefore<E>(ops: seq<Op<E>>): Option<nat> {
    if ops == [] then None
    else if ops[|ops| - 1].SetBefore? then ops[|ops| - 1].before
    else LastBefore(ops[..|ops| - 1])
  }

  /** `slot` has been reserved by the calls and not been filled by any of them. */
  predicate IsPending<E>(ops: seq<Op<E>>, slot: nat) {
    1 <= slot <= Count(ops, true) && forall i | 0 <= i < |ops| && ops[i].Fill? :: ops[i].slot != slot
  }

  lemma {:induction false} RunMore<E>(l: Log<E>, ops: seq<Op<E>>, op: Op<E>)
    ensures Run(l, ops + [op]) == Apply(Run(l, ops), op)
    ensures Count(ops + [op], true) == Count(ops, true) + if op.Reserve? then 1 else 0
    decreases ops
  {
    if ops == [] {
      assert [] + [op] == [op] && [op][1..] == [];
    } else {
      assert (ops + [op])[1..] == ops[1..] + [op];
      RunMore(Apply(l, ops[0]), ops[1..], op);
    }
  }

  /** What the calls leave: the slot to precede, the number of slots, and a hole for each pending slot. */
  lemma {:induction false} CallsLeave<E>(ops: seq<Op<E>>)
    ensures var l := Run(Start<E>(), ops);
            && l.beforeSlot == LastBefore(ops) && l.nextSlot == Count(ops, true) && SlotsUnique(l)
            && forall slot: nat | IsPending(ops, slot) :: Entry(slot, None) in l.entries
  {
    if ops != [] {
      var front, op := ops[..|ops| - 1], ops[|ops| - 1];
      assert ops == front + [op];
      var l := Run(Start<E>(), front);
      CallsLeave(front);
      RunMore(Start<E>(), front, op);
      StepKeepsSlotsUnique(l, op);
      forall slot: nat | IsPending(ops, slot) ensures Entry(slot, None) in Apply(l, op).entries {
        PendingKeepsHole(front, op, slot);
        HoleStays(l, op, slot);
      }
    }
  }

  lemma PendingKeepsHole<E>(front: seq<Op<E>>, op: Op<E>, slot: nat)
    requires IsPending(front + [op], slot)
    ensures op.Fill? ==> op.slot != slot
    ensures IsPending(front, slot) || (op.Reserve? && slot == Count(front, true) + 1)
  {
    RunMore(Start<E>(), front, op);
    var ops := front + [op];
    assert ops[|front|] == op;
    assert forall i | 0 <= i < |front| :: ops[i] == front[i];
  }

  lemma HoleStays<E>(l: Log<E>, op: Op<E>, slot: nat)
    requires Entry(slot, None) in l.entries || (op.Reserve? && slot == l.nextSlot + 1)
    requires op.Fill? ==> op.slot != slot
    ensures Entry(slot, None) in Apply(l, op).entries
  {
    match op
    case Emit(event) => InsertKeepsHoles(l.entries, Landing(l), event, slot);
    case SetBefore(_) =>
    case Reserve => assert Apply(l, op).entries[|l.entries|] == Entry(l.nextSlot + 1, None);
    case Fill(filled, event) =>
      var i :| 0 <= i < |l.entries| && l.entries[i] == Entry(slot, None);
      assert Apply(l, op).entries[i] == Entry(slot, None);
  }

  /** After `SetBefore(s)` with `s` pending, an emitted event stands right before the hole of `s`. */
  lemma EmitStandsBefore<E>(ops: seq<Op<E>>, slot: nat, event: E) returns (p: nat)
    requires LastBefore(ops) == Some(slot) && IsPending(ops, slot)
    ensures var entries := Run(Start<E>(), ops + [Emit(event)]).entries;
            && p + 1 < |entries| && entries[p] == Entry(0, Some(event)) && entries[p + 1] == Entry(slot, None)
  {
    var l := Run(Start<E>(), ops);
    CallsLeave(ops);
    RunMore(Start<E>(), ops, Emit(event));
    OpenIsHole(l, slot);
    p := Landing(l);
    EmitLands(l, event);
  }

  /** Without a slot to precede it stands at the end. */
  lemma EmitStandsLast<E>(ops: seq<Op<E>>, event: E)
    requires LastBefore(ops) == None
    ensures Run(Start<E>(), ops + [Emit(event)]).entries == Run(Start<E>(), ops).entries + [Entry(0, Some(event))]
  {
    CallsLeave(ops);
    RunMore(Start<E>(), ops, Emit(event));
  }

  /** Two entries that have been delivered appear in the order of the log. */
  lemma DeliveredInOrder<E>(l: Log<E>, i: nat, j: nat) returns (front: seq<E>, middle: seq<E>, back: seq<E>)
    requires i < j < Ready(l.entries)
    ensures Delivered(l)
         == front + [l.entries[i].event.value] + middle + [l.entries[j].event.value] + back
    ensures front == EventsOf(l.entries[..i])
  {
    var entries, n := l.entries, Ready(l.entries);
    var a, b, c := entries[..i], entries[i + 1..j], entries[j + 1..n];
    front, middle, back := EventsOf(a), EventsOf(b), EventsOf(c);
    assert entries[..n] == (((a + [entries[i]]) + b) + [entries[j]]) + c;
    EventsOfConcat(((a + [entries[i]]) + b) + [entries[j]], c);
    EventsOfConcat((a + [entries[i]]) + b, [entries[j]]);
    EventsOfConcat(a + [entries[i]], b);
    EventsOfConcat(a, [entries[i]]);
    EventsOfOne(entries[i]);
    EventsOfOne(entries[j]);
  }

  /**
   Preceding a final, from the calls alone: an event emitted after `SetBefore(s)`, with `s` reserved and not
   yet filled, is in front of the final of `s` ever after, and delivered before it.
   */
  lemma EmittedComesBeforeFinal<E>(ops: seq<Op<E>>, slot: nat, event: E, rest: seq<Op<E>>)
    returns (eventAt: nat, slotAt: nat, front: seq<E>, middle: seq<E>, back: seq<E>)
    requires LastBefore(ops) == Some(slot) && IsPending(ops, slot)
    requires FillsOpenSlots(Run(Start<E>(), ops + [Emit(event)]), rest)
    ensures var l := Run(Run(Start<E>(), ops + [Emit(event)]), rest);
            && eventAt < slotAt < |l.entries|
            && l.entries[eventAt] == Entry(0, Some(event)) && l.entries[slotAt].slot == slot
            && (slotAt < Ready(l.entries) ==>
                  Delivered(l) == front + [event] + middle + [l.entries[slotAt].event.value] + back)
  {
    front, middle, back := [], [], [];
    var emitted := Run(Start<E>(), ops + [Emit(event)]);
    var p := EmitStandsBefore(ops, slot, event);
    var where := RunTracks(emitted, rest);
    eventAt, slotAt := where[p], where[p + 1];
    var l := Run(emitted, rest);
    assert SameEntry(emitted.entries[p], l.entries[eventAt]);
    assert SameEntry(emitted.entries[p + 1], l.entries[slotAt]);
    if slotAt < Ready(l.entries) {
      front, middle, back := DeliveredInOrder(l, eventAt, slotAt);
    }
  }

  /** The log of one slot, and one event if it has come, in front of it. */
  function OneSlot(before: Option<nat>, first: Option<int>, final: Option<int>): Log<int> {
    Log((if first.Some? then [Entry(0, first)] else []) + [Entry(1, final)], 1, before)
  }

  lemma OneSlotSteps()
    ensures Apply(Start<int>(), Reserve) == OneSlot(None, None, None)
    ensures Apply(OneSlot(None, None, None), SetBefore(Some(1))) == OneSlot(Some(1), None, None)
  {
  }

  lemma OneSlotEmits(event: int)
    ensures Apply(OneSlot(Some(1), None, None), Emit(event)) == OneSlot(Some(1), Some(event), None)
  {
    var entries := OneSlot(Some(1), None, None).entries;
    assert entries[..0] == [] && entries[0..] == entries;
  }

  lemma OneSlotFills(event: int, final: int)
    ensures Apply(OneSlot(Some(1), Some(event), None), Fill(1, final)) == OneSlot(Some(1), Some(event), Some(final))
  {
    var entries: seq<Entry<int>> := OneSlot(Some(1), Some(event), None).entries;
    assert entries == [Entry(0, Some(event)), Entry(1, None)] && entries[1..] == [Entry(1, None)];
    assert entries[1 := Entry(1, Some(final))] == OneSlot(Some(1), Some(event), Some(final)).entries;
  }

  lemma OneSlotDelivered(event: int, final: int)
    ensures Delivered(OneSlot(Some(1), Some(event), Some(final))) == [event, final]
  {
    var e, f := Entry(0, Some(event)), Entry(1, Some(final));
    var entries := OneSlot(Some(1), Some(event), Some(final)).entries;
    assert entries == [e] + [f] && entries[1..] == [f] && entries[1..][1..] == [] && entries[..2] == entries;
    EventsOfConcat([e], [f]);
    EventsOfOne(e);
    EventsOfOne(f);
  }

  /** A case of it: the event emitted second is delivered first. */
  lemma BargeInComesFirst(event: int, final: int)
    ensures Delivered(Run(Start<int>(), [Reserve, SetBefore(Some(1)), Emit(event), Fill(1, final)])) == [event, final]
  {
    var last: seq<Op<int>> := [Emit(event)] + ([Fill(1, final)] + []);
    assert [Reserve, SetBefore(Some(1)), Emit(event), Fill(1, final)] == [Reserve] + ([SetBefore(Some(1))] + last);
    OneSlotSteps();
    RunFirst(Start<int>(), Reserve, [SetBefore(Some(1))] + last);
    RunFirst(OneSlot(None, None, None), SetBefore(Some(1)), last);
    OneSlotEmits(event);
    RunFirst(OneSlot(Some(1), None, None), Emit(event), [Fill(1, final)] + []);
    OneSlotFills(event, final);
    RunFirst(OneSlot(Some(1), Some(event), None), Fill(1, final), []);
    OneSlotDelivered(event, final);
  }

  // ----- every final arrives

  function Holes<E>(entries: seq<Entry<E>>): nat {
    if entries == [] then 0 else (if entries[0].event.None? then 1 else 0) + Holes(entries[1..])
  }

  lemma {:induction false} HolesOfConcat<E>(a: seq<Entry<E>>, b: seq<Entry<E>>)
    ensures Holes(a + b) == Holes(a) + Holes(b)
  {
    if a == [] {
      assert a + b == b;
    } else {
      assert (a + b)[1..] == a[1..] + b;
      HolesOfConcat(a[1..], b);
    }
  }

  lemma {:induction false} NoHolesAllReady<E>(entries: seq<Entry<E>>)
    ensures Holes(entries) == 0 <==> Ready(entries) == |entries|
  {
    if entries != [] {
      NoHolesAllReady(entries[1..]);
    }
  }

  function Count<E>(ops: seq<Op<E>>, reserves: bool): nat {
    if ops == [] then 0
    else (if (if reserves then ops[0].Reserve? else ops[0].Fill?) then 1 else 0) + Count(ops[1..], reserves)
  }

  lemma HolesAfter<E>(l: Log<E>, op: Op<E>)
    requires op.Fill? ==> IsOpen(l, op.slot)
    ensures Holes(Apply(l, op).entries) + (if op.Fill? then 1 else 0)
         == Holes(l.entries) + (if op.Reserve? then 1 else 0)
  {
    var entries := l.entries;
    match op
    case Emit(event) =>
      HolesOfInsert(entries, Landing(l), Entry(0, Some(event)));
    case SetBefore(_) =>
    case Reserve =>
      HolesOfConcat(entries, [Entry(l.nextSlot + 1, None)]);
      HolesOfOne<E>(Entry(l.nextSlot + 1, None));
    case Fill(slot, event) =>
      var p, e := FindUndelivered(l, slot).value, Entry(slot, Some(event));
      UpdateIsInsert(entries, p, e);
      HolesOfInsert(Without(entries, p), p, entries[p]);
      HolesOfInsert(Without(entries, p), p, e);
  }

  lemma HolesOfInsert<E>(entries: seq<Entry<E>>, p: nat, e: Entry<E>)
    requires p <= |entries|
    ensures Holes(Insert(entries, p, e)) == Holes(entries) + if e.event.None? then 1 else 0
  {
    var front, back := entries[..p], entries[p..];
    assert Holes(entries) == Holes(front) + Holes(back) by {
      assert entries == front + back;
      HolesOfConcat(front, back);
    }
    assert Holes(front + [e]) == Holes(front) + Holes([e]) by { HolesOfConcat(front, [e]); }
    assert Holes(front + [e] + back) == Holes(front + [e]) + Holes(back) by { HolesOfConcat(front + [e], back); }
    HolesOfOne(e);
  }

  lemma HolesOfOne<E>(e: Entry<E>)
    ensures Holes([e]) == if e.event.None? then 1 else 0
  {
    assert [e][1..] == [];
  }

  lemma {:induction false} HolesOverRun<E>(l: Log<E>, ops: seq<Op<E>>)
    requires FillsOpenSlots(l, ops)
    ensures Holes(Run(l, ops).entries) + Count(ops, false) == Holes(l.entries) + Count(ops, true)
    decreases ops
  {
    if ops != [] {
      HolesAfter(l, ops[0]);
      HolesOverRun(Apply(l, ops[0]), ops[1..]);
    }
  }

  /** Everything is delivered exactly when every reserved slot has been filled. */
  lemma AllDeliveredWhenAllFilled<E>(ops: seq<Op<E>>)
    requires FillsReservedOnce(ops, 0, {})
    ensures var l := Run(Start<E>(), ops);
            && (Ready(l.entries) == |l.entries| <==> Count(ops, true) == Count(ops, false))
            && (Count(ops, true) == Count(ops, false) ==> multiset(Delivered(l)) == multiset(AllGiven(ops)))
  {
    var l := Run(Start<E>(), ops);
    OpenMeansReservedOnce(ops);
    HolesOverRun(Start<E>(), ops);
    NoHolesAllReady(l.entries);
    RunKeepsEvents(Start<E>(), ops);
    if Ready(l.entries) == |l.entries| {
      assert l.entries[..|l.entries|] == l.entries;
    }
  }

  // ----- the bus object

  class SpeechEventBus<E(0)> {
    var nextSlot: nat
    var queue: seq<Entry<E>>
    var beforeSlot: Option<nat>
    // What the broadcast channel has been given, in order.
    var sent: seq<E>
    // The log entries behind `sent`.
    ghost var delivered: seq<Entry<E>>

    ghost function AsLog(): Log<E>
      reads this
    {
      Log(delivered + queue, nextSlot, beforeSlot)
    }

    /** The queue starts at the log's first hole. */
    ghost predicate Valid()
      reads this
    {
      && (forall i | 0 <= i < |delivered| :: delivered[i].event.Some?)
      && (queue != [] ==> queue[0].event.None?)
      && sent == EventsOf(delivered)
    }

    lemma SentIsDelivered()
      requires Valid()
      ensures Ready(AsLog().entries) == |delivered| && sent == Delivered(AsLog())
    {
      ReadyIs(delivered, queue);
      assert (delivered + queue)[..|delivered|] == delivered;
    }

    constructor ()
      ensures Valid() && AsLog() == Start()
    {
      nextSlot, queue, beforeSlot, sent, delivered := 0, [], None, [], [];
    }

    method EmitEvent(event: E)
      requires Valid()
      modifies this
      ensures Valid() && AsLog() == Apply(old(AsLog()), Emit(event)) && sent == Delivered(AsLog())
    {
      SentIsDelivered();
      EmittedEntries(AsLog(), delivered, queue, event);
      var pos := if beforeSlot.Some? then Find(queue, 0, beforeSlot.value) else None;
      if pos.Some? {
        queue := Insert(queue, pos.value, Entry(0, Some(event)));
        DeliverReady();
      } else if queue == [] {
        Send(Entry(0, Some(event)));
        assert delivered + queue == old(delivered) + Insert([], 0, Entry(0, Some(event)));
      } else {
        queue := queue + [Entry(0, Some(event))];
        assert queue == Insert(old(queue), |old(queue)|, Entry(0, Some(event)));
      }
      SentIsDelivered();
    }

    method SetBeforeSlot(slot: Option<nat>)
      requires Valid()
      modifies this
      ensures Valid() && AsLog() == Apply(old(AsLog()), SetBefore(slot)) && sent == Delivered(AsLog())
      ensures beforeSlot == slot && queue == old(queue) && sent == old(sent)
    {
      beforeSlot := slot;
      SentIsDelivered();
    }

    method ReserveSlot() returns (slot: nat)
      requires Valid()
      modifies this
      ensures Valid() && AsLog() == Apply(old(AsLog()), Reserve) && sent == Delivered(AsLog())
      ensures slot == nextSlot == old(nextSlot) + 1
    {
      ReservedEntries(AsLog(), delivered, queue);
      nextSlot := nextSlot + 1;
      slot := nextSlot;
      queue := queue + [Entry(slot, None)];
      SentIsDelivered();
    }

    method FillSlot(slot: nat, event: E)
      requires Valid()
      modifies this
      ensures Valid() && AsLog() == Apply(old(AsLog()), Fill(slot, event)) && sent == Delivered(AsLog())
    {
      SentIsDelivered();
      FindShifts(delivered, queue, slot);
      ghost var before := delivered + queue;
      var pos := Find(queue, 0, slot);
      if pos.Some? {
        queue := queue[pos.value := Entry(slot, Some(event))];
        assert delivered + queue == before[|delivered| + pos.value := Entry(slot, Some(event))];
      }
      DeliverReady();
      SentIsDelivered();
    }

    /** Sends the hole-free front of the queue. */
    method DeliverReady()
      requires forall i | 0 <= i < |delivered| :: delivered[i].event.Some?
      requires sent == EventsOf(delivered)
      modifies `queue, `sent, `delivered
      ensures Valid() && delivered + queue == old(delivered + queue)
    {
      while queue != [] && queue[0].event.Some?
        invariant forall i | 0 <= i < |delivered| :: delivered[i].event.Some?
        invariant sent == EventsOf(delivered) && delivered + queue == old(delivered + queue)
        decreases |queue|
      {
        var first := queue[0];
        queue := queue[1..];
        Send(first);
      }
    }

    method Send(e: Entry<E>)
      requires e.event.Some? && sent == EventsOf(delivered)
      modifies `sent, `delivered
      ensures delivered == old(delivered) + [e] && sent == EventsOf(delivered)
    {
      EventsOfConcat(delivered, [e]);
      assert EventsOf([e]) == [e.event.value] + EventsOf([e][1..]);
      sent := sent + [e.event.value];
      delivered := delivered + [e];
    }
  }

  lemma {:induction false} ReadyIs<E>(delivered: seq<Entry<E>>, queue: seq<Entry<E>>)
    requires forall i | 0 <= i < |delivered| :: delivered[i].event.Some?
    requires queue != [] ==> queue[0].event.None?
    ensures Ready(delivered + queue) == |delivered|
  {
    assert forall i | 0 <= i < |delivered| :: (delivered + queue)[i] == delivered[i];
    assert queue != [] ==> (delivered + queue)[|delivered|] == queue[0];
  }

  /** The log after an emission, from the queue's point of view. */
  lemma EmittedEntries<E>(l: Log<E>, delivered: seq<Entry<E>>, queue: seq<Entry<E>>, event: E)
    requires l.entries == delivered + queue && Ready(l.entries) == |delivered|
    ensures var pos := if l.beforeSlot.Some? then Find(queue, 0, l.beforeSlot.value) else None;
            var p := if pos.Some? then pos.value else |queue|;
            Apply(l, Emit(event)) == l.(entries := delivered + Insert(queue, p, Entry(0, Some(event))))
  {
    var e := Entry(0, Some(event));
    if l.beforeSlot.Some? {
      FindShifts(delivered, queue, l.beforeSlot.value);
      var pos := Find(queue, 0, l.beforeSlot.value);
      InsertShifts(delivered, queue, if pos.Some? then pos.value else |queue|, e);
    } else {
      InsertShifts(delivered, queue, |queue|, e);
    }
  }

  lemma InsertShifts<E>(delivered: seq<Entry<E>>, queue: seq<Entry<E>>, p: nat, e: Entry<E>)
    requires p <= |queue|
    ensures Insert(delivered + queue, |delivered| + p, e) == delivered + Insert(queue, p, e)
  {
  }

  lemma ReservedEntries<E>(l: Log<E>, delivered: seq<Entry<E>>, queue: seq<Entry<E>>)
    requires l.entries == delivered + queue
    ensures Apply(l, Reserve)
         == l.(nextSlot := l.nextSlot + 1, entries := delivered + (queue + [Entry(l.nextSlot + 1, None)]))
  {
  }

  /** Searching the queue is searching the undelivered part of the log. */
  lemma {:induction false} FindShifts<E>(delivered: seq<Entry<E>>, queue: seq<Entry<E>>, slot: nat)
    ensures Find(delivered + queue, |delivered|, slot)
         == match Find(queue, 0, slot) case Some(p) => Some(|delivered| + p) case None => None
  {
    var p, q := Find(delivered + queue, |delivered|, slot), Find(queue, 0, slot);
    if q.Some? {
      assert (delivered + queue)[|delivered| + q.value].slot == slot;
    }
    if p.Some? {
      assert queue[p.value - |delivered|].slot == slot;
    }
  }
}
