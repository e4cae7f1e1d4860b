/**
 The mix graph object: sources, media clock, listener positions, mutes, routes and exclusive groups,
 all updated in place.  The media side is proved against the transitions of `MixModel`.
 */
module MixGraphs {
  import opened Wrappers
  import opened Frames
  import opened Elastic
  import opened MixModel
  import opened Sequences
  import MixBus

  type Group = string

  // ----- what a render mixes

  function HistoryOf(inputs: map<Id, Slot>, id: Id): seq<Frame> {
    if id in inputs then inputs[id].history else []
  }

  /** What `ids`, in this order, contribute to a render; `pan` stands for the spatial placement of a source. */
  function Panned(ids: seq<Id>, step: ListenerStep, inputs: map<Id, Slot>, pan: (Id, Frame) -> seq<Byte>)
    : (r: seq<seq<Byte>>)
    ensures |r| == |ids| && forall k | 0 <= k < |r| :: r[k] == pan(ids[k], Heard(step, HistoryOf(inputs, ids[k])))
  {
    Image(id => pan(id, Heard(step, HistoryOf(inputs, id))), ids)
  }

  function Among(ids: seq<Id>): set<Id> {
    set id <- ids
  }

  /** Whatever order the sources are visited in, up to 65535 of them mix to the same frame. */
  lemma VisitOrderDoesNotMatter(
      a: seq<Id>, b: seq<Id>, all: set<Id>, step: ListenerStep, inputs: map<Id, Slot>, pan: (Id, Frame) -> seq<Byte>)
    requires Enumerates(a, all) && Enumerates(b, all) && |a| <= 65_535
    ensures MixBus.Mixed(Panned(a, step, inputs, pan)) == MixBus.Mixed(Panned(b, step, inputs, pan))
  {
    EnumerationIsSet(a, all);
    EnumerationIsSet(b, all);
    ImageOfPermutation(id => pan(id, Heard(step, HistoryOf(inputs, id))), a, b);
    MixBus.MixIgnoresOrder(Panned(a, step, inputs, pan), Panned(b, step, inputs, pan));
  }

  /** The routing and mute rules. */
  datatype Rules = Rules(routes: map<Id, set<Id>>, globalMute: set<Id>, listenerMute: map<(Id, Id), bool>)

  /** The rules let `listener` hear `source`. */
  predicate Hears(rules: Rules, listener: Id, source: Id) {
    && source != listener
    && Allows(rules.routes, listener, source)
    && source !in rules.globalMute
    && !((listener, source) in rules.listenerMute && rules.listenerMute[(listener, source)])
  }

  function Audible(enabled: bool, sources: set<Id>, rules: Rules, listener: Id): set<Id> {
    if enabled then set id | id in sources && Hears(rules, listener, id) else {}
  }

  /** `out` is the mix of `all` in some order, and in every order while there are at most 65535 of them. */
  ghost predicate IsMixOf(
      out: seq<Byte>, all: set<Id>, step: ListenerStep, inputs: map<Id, Slot>, pan: (Id, Frame) -> seq<Byte>)
  {
    && (exists ids :: Enumerates(ids, all) && out == MixBus.Mixed(Panned(ids, step, inputs, pan)))
    && (forall ids | Enumerates(ids, all) && |ids| <= 65_535 :: out == MixBus.Mixed(Panned(ids, step, inputs, pan)))
  }

  lemma MixOfAll(
      out: seq<Byte>, heard: seq<Id>, all: set<Id>, step: ListenerStep, inputs: map<Id, Slot>,
      pan: (Id, Frame) -> seq<Byte>)
    requires Enumerates(heard, all) && out == MixBus.Mixed(Panned(heard, step, inputs, pan))
    ensures IsMixOf(out, all, step, inputs, pan)
  {
    forall ids | Enumerates(ids, all) && |ids| <= 65_535 ensures out == MixBus.Mixed(Panned(ids, step, inputs, pan)) {
      VisitOrderDoesNotMatter(ids, heard, all, step, inputs, pan);
    }
  }

  /** All that a render reads. */
  datatype Room = Room(graph: Graph, enabled: bool, rules: Rules)

  /** `out` is the frame that `listener` renders at `now`. */
  ghost predicate Rendered(room: Room, listener: Id, now: int, pan: (Id, Frame) -> seq<Byte>, out: seq<Byte>)
    requires WellFormed(room.graph)
  {
    if room.enabled
    then
      IsMixOf(out, Audible(true, room.graph.media.inputs.Keys, room.rules, listener),
              StepAt(Advanced(room.graph, now), listener, now).0, Advanced(room.graph, now).media.inputs, pan)
    else IsSilence(out)
  }

  predicate IsSilence(out: seq<Byte>) {
    |out| == FRAME_BYTES && forall i | 0 <= i < FRAME_BYTES :: out[i] == 0
  }

  /** Two rooms alike in all that concerns `listener`, except its own source and the mutes of that. */
  ghost predicate AlikeButOwn(a: Room, b: Room, listener: Id) {
    && a.enabled == b.enabled
    && a.graph.media.clock == b.graph.media.clock && a.graph.media.tickCount == b.graph.media.tickCount
    && (listener in a.graph.cursors <==> listener in b.graph.cursors)
    && (listener in a.graph.cursors ==> a.graph.cursors[listener] == b.graph.cursors[listener])
    && a.graph.media.inputs - {listener} == b.graph.media.inputs - {listener}
    && SameRoute(a.rules.routes, b.rules.routes, listener)
    && SameMutes(a.rules, b.rules, listener)
  }

  ghost predicate SameMutes(a: Rules, b: Rules, listener: Id) {
    forall id | id != listener ::
      (id in a.globalMute <==> id in b.globalMute) && (Mutes(a, listener, id) <==> Mutes(b, listener, id))
  }

  predicate Mutes(rules: Rules, listener: Id, source: Id) {
    (listener, source) in rules.listenerMute && rules.listenerMute[(listener, source)]
  }

  lemma SameAudible(a: Room, b: Room, listener: Id)
    requires AlikeButOwn(a, b, listener)
    ensures var all := Audible(a.enabled, a.graph.media.inputs.Keys, a.rules, listener);
            listener !in all && all == Audible(b.enabled, b.graph.media.inputs.Keys, b.rules, listener)
  {
    var s, s' := a.graph.media.inputs, b.graph.media.inputs;
    forall id | id != listener
      ensures (id in s <==> id in s') && (Hears(a.rules, listener, id) <==> Hears(b.rules, listener, id))
    {
      assert id in s <==> id in s - {listener};
      assert id in s' <==> id in s' - {listener};
    }
  }

  lemma SameSourcesSamePanned(
      ids: seq<Id>, step: ListenerStep, a: map<Id, Slot>, b: map<Id, Slot>, pan: (Id, Frame) -> seq<Byte>)
    requires forall k | 0 <= k < |ids| :: HistoryOf(a, ids[k]) == HistoryOf(b, ids[k])
    ensures Panned(ids, step, a, pan) == Panned(ids, step, b, pan)
  {
  }

  lemma SameHistoriesSameMix(
      out: seq<Byte>, out': seq<Byte>, all: set<Id>, step: ListenerStep, a: map<Id, Slot>, b: map<Id, Slot>,
      pan: (Id, Frame) -> seq<Byte>)
    requires IsMixOf(out, all, step, a, pan) && IsMixOf(out', all, step, b, pan) && |all| <= 65_535
    requires forall id <- all :: HistoryOf(a, id) == HistoryOf(b, id)
    ensures out == out'
  {
    var ids :| Enumerates(ids, all) && out == MixBus.Mixed(Panned(ids, step, a, pan));
    assert |ids| <= 65_535 by {
      EnumerationIsSet(ids, all);
      assert |ids| == |multiset(all)| == |all|;
    }
    forall k | 0 <= k < |ids| ensures HistoryOf(a, ids[k]) == HistoryOf(b, ids[k]) {
      assert ids[k] in ids && ids[k] in all;
    }
    SameSourcesSamePanned(ids, step, a, b, pan);
  }

  lemma {:induction false} Cardinality<T>(a: set<T>, b: set<T>)
    requires a <= b
    ensures |a| <= |b|
    decreases a
  {
    if a != {} {
      var x :| x in a;
      Cardinality(a - {x}, b - {x});
    }
  }

  /**
   A listener's own voice has no influence on what it hears: whatever its source has played or queued,
   registered or not, muted or not, it renders the same frame.
   */
  lemma OwnVoiceIsNotHeard(
      a: Room, b: Room, listener: Id, now: int, pan: (Id, Frame) -> seq<Byte>, out: seq<Byte>, out': seq<Byte>)
    requires WellFormed(a.graph) && WellFormed(b.graph) && AlikeButOwn(a, b, listener)
    requires |a.graph.media.inputs| <= 65_535 && |b.graph.media.inputs| <= 65_535
    requires Rendered(a, listener, now, pan, out) && Rendered(b, listener, now, pan, out')
    ensures out == out'
  {
    if a.enabled {
      var all := Audible(true, a.graph.media.inputs.Keys, a.rules, listener);
      SameAudible(a, b, listener);
      var ia, ib := Advanced(a.graph, now).media.inputs, Advanced(b.graph, now).media.inputs;
      var step := StepAt(Advanced(a.graph, now), listener, now).0;
      SameStep(a, b, listener, now);
      Cardinality(all, b.graph.media.inputs.Keys);
      forall id <- all ensures HistoryOf(ia, id) == HistoryOf(ib, id) {
        AlikeAfterAdvance(a.graph.media, b.graph.media, listener, id, now);
      }
      SameHistoriesSameMix(out, out', all, step, ia, ib, pan);
    }
  }

  lemma SameStep(a: Room, b: Room, listener: Id, now: int)
    requires WellFormed(a.graph) && WellFormed(b.graph) && AlikeButOwn(a, b, listener)
    ensures StepAt(Advanced(a.graph, now), listener, now).0 == StepAt(Advanced(b.graph, now), listener, now).0
  {
    var g, g' := Advanced(a.graph, now), Advanced(b.graph, now);
    assert g.media.clock == g'.media.clock && g.media.tickCount == g'.media.tickCount;
    assert CursorAt(g, listener, now) == CursorAt(g', listener, now);
  }

  lemma AlikeAfterAdvance(m: Media, m': Media, listener: Id, id: Id, now: int)
    requires m.clock == m'.clock && m.inputs - {listener} == m'.inputs - {listener} && id != listener
    ensures HistoryOf(Advance(m, now).inputs, id) == HistoryOf(Advance(m', now).inputs, id)
  {
    assert id in m.inputs <==> id in m.inputs - {listener};
    assert id in m'.inputs <==> id in m'.inputs - {listener};
    if id in m.inputs {
      assert m.inputs[id] == (m.inputs - {listener})[id] == (m'.inputs - {listener})[id] == m'.inputs[id];
    }
  }

  /** A listener with nobody else in the room hears silence. */
  lemma AloneIsSilence(room: Room, listener: Id, now: int, pan: (Id, Frame) -> seq<Byte>, out: seq<Byte>)
    requires WellFormed(room.graph) && Rendered(room, listener, now, pan, out)
    requires room.graph.media.inputs.Keys <= {listener}
    ensures IsSilence(out)
  {
    if room.enabled {
      var all := Audible(true, room.graph.media.inputs.Keys, room.rules, listener);
      assert all == {};
      var g := Advanced(room.graph, now);
      var step := StepAt(g, listener, now).0;
      var ids :| Enumerates(ids, all) && out == MixBus.Mixed(Panned(ids, step, g.media.inputs, pan));
      EnumerationIsSet(ids, all);
      assert |multiset(ids)| == 0;
      MixBus.NothingMixedIsSilence();
    }
  }

  /** Whose history a render plays: with one audible source, that source's own. */
  lemma OneSpeakerIsHeard(
      room: Room, listener: Id, now: int, pan: (Id, Frame) -> seq<Byte>, out: seq<Byte>, source: Id)
    requires WellFormed(room.graph) && room.enabled && Rendered(room, listener, now, pan, out)
    requires Audible(true, room.graph.media.inputs.Keys, room.rules, listener) == {source}
    ensures var g := Advanced(room.graph, now);
            && source in g.media.inputs
            && out == MixBus.Mixed([pan(source, Heard(StepAt(g, listener, now).0, g.media.inputs[source].history))])
  {
    var g := Advanced(room.graph, now);
    var step := StepAt(g, listener, now).0;
    assert source in {source};
    assert Enumerates([source], {source}) by { assert forall x :: x in [source] <==> x in {source}; }
    assert Panned([source], step, g.media.inputs, pan) == [pan(source, Heard(step, g.media.inputs[source].history))];
  }

  lemma RenderInParts(g: Graph, listener: Id, now: int, audible: set<Id>)
    requires WellFormed(g)
    ensures var a := Advanced(g, now);
            var (step, cursor) := StepAt(a, listener, now);
            Apply(g, Render(listener, now, audible))
            == Graph(a.media.(inputs := Credit(a.media.inputs, audible, step)), a.cursors[listener := cursor])
  {
  }

  // ----- groups

  type Groups = map<Group, set<Id>>
  type Routes = map<Id, set<Id>>
  // The group each participant points at.
  type Pointers = map<Id, Group>

  /** A member of `group` points at it, hence is in no other group. */
  ghost predicate Belongs(groups: Groups, memberGroup: Pointers, group: Group, id: Id) {
    group in groups && id in groups[group] ==> id in memberGroup && memberGroup[id] == group
  }

  /** The allow-list of a member is exactly the other members; alone in its group it has none. */
  ghost predicate Isolated(groups: Groups, routes: Routes, group: Group, id: Id) {
    group in groups && id in groups[group] ==>
      if groups[group] == {id} then id !in routes
      else id in routes && routes[id] == groups[group] - {id}
  }

  /** Every group is isolated, except those in `pending`, whose routes are yet to be rebuilt. */
  ghost predicate IsolatedBut(groups: Groups, memberGroup: Pointers, routes: Routes, pending: set<Group>) {
    forall group, id ::
      Belongs(groups, memberGroup, group, id) && (group !in pending ==> Isolated(groups, routes, group, id))
  }

  function MembersOf(groups: Groups, group: Group): set<Id> {
    if group in groups then groups[group] else {}
  }

  /** `groups` with the members in `gone` taken out of every group but `group`. */
  ghost predicate OthersWithout(before: Groups, after: Groups, gone: set<Id>, group: Group) {
    forall g | g != group :: MembersOf(after, g) == MembersOf(before, g) - gone
  }

  lemma OthersWithoutMore(before: Groups, mid: Groups, after: Groups, gone: set<Id>, id: Id, group: Group)
    requires OthersWithout(before, mid, gone, group) && OthersWithout(mid, after, {id}, group)
    ensures OthersWithout(before, after, gone + {id}, group)
  {
    forall g | g != group ensures MembersOf(after, g) == MembersOf(before, g) - (gone + {id}) {
      assert MembersOf(mid, g) == MembersOf(before, g) - gone;
    }
  }

  /** All of `ids` pointing at `group`. */
  function Pointing(memberGroup: Pointers, ids: set<Id>, group: Group): Pointers {
    memberGroup + map id | id in ids :: group
  }

  lemma PointingMore(memberGroup: Pointers, ids: set<Id>, id: Id, group: Group)
    ensures Pointing(memberGroup, ids, group)[id := group] == Pointing(memberGroup, ids + {id}, group)
  {
  }

  /** The groups once `id` has left the one it points at. */
  function Left(groups: Groups, memberGroup: Pointers, id: Id): Groups {
    if id in memberGroup && memberGroup[id] in groups
    then groups[memberGroup[id] := groups[memberGroup[id]] - {id}]
    else groups
  }

  function Pending(memberGroup: Pointers, id: Id): set<Group> {
    if id in memberGroup then {memberGroup[id]} else {}
  }

  /** Leaving takes a participant out of every group, and only its old group needs new routes. */
  lemma LeavingLeavesAll(groups: Groups, memberGroup: Pointers, routes: Routes, id: Id, memberGroup': Pointers)
    requires IsolatedBut(groups, memberGroup, routes, {})
    requires forall x | x != id && x in memberGroup :: x in memberGroup' && memberGroup'[x] == memberGroup[x]
    ensures forall g :: MembersOf(Left(groups, memberGroup, id), g) == MembersOf(groups, g) - {id}
    ensures IsolatedBut(Left(groups, memberGroup, id), memberGroup', routes, Pending(memberGroup, id))
  {
    var groups' := Left(groups, memberGroup, id);
    forall g ensures MembersOf(groups', g) == MembersOf(groups, g) - {id} {
      assert Belongs(groups, memberGroup, g, id);
    }
    forall g, x ensures Belongs(groups', memberGroup', g, x) {
      assert Belongs(groups, memberGroup, g, x) && MembersOf(groups', g) == MembersOf(groups, g) - {id};
    }
    forall g, x | g !in Pending(memberGroup, id) ensures Isolated(groups', routes, g, x) {
      assert Belongs(groups, memberGroup, g, x) && Isolated(groups, routes, g, x);
      assert MembersOf(groups', g) == MembersOf(groups, g) - {id};
    }
  }

  /** Giving a group new members, none of them in another group, leaves only that group to be rebuilt. */
  lemma JoiningKeepsOthers(
      groups: Groups, memberGroup: Pointers, routes: Routes, group: Group, members: set<Id>, pending: set<Group>)
    requires IsolatedBut(groups, memberGroup, routes, pending)
    requires forall id <- members :: id in memberGroup && memberGroup[id] == group
    ensures IsolatedBut(groups[group := members], memberGroup, routes, pending + {group})
  {
    var groups' := groups[group := members];
    forall g, x ensures Belongs(groups', memberGroup, g, x) {
      assert Belongs(groups, memberGroup, g, x);
    }
    forall g, x | g !in pending + {group} ensures Isolated(groups', routes, g, x) {
      assert Isolated(groups, routes, g, x);
    }
  }

  lemma MembersPoint(groups: Groups, memberGroup: Pointers, routes: Routes, group: Group, pending: set<Group>)
    requires IsolatedBut(groups, memberGroup, routes, pending)
    ensures forall id <- MembersOf(groups, group) :: id in memberGroup && memberGroup[id] == group
  {
    forall id | id in MembersOf(groups, group) ensures id in memberGroup && memberGroup[id] == group {
      assert Belongs(groups, memberGroup, group, id);
    }
  }

  /** The routes once `id` is forgotten both as a listener and as a source. */
  function Forgotten(routes: Routes, id: Id): Routes {
    map l | l in routes && l != id && routes[l] - {id} != {} :: routes[l] - {id}
  }

  /**
   Whom the others may hear once `id` is forgotten: those they could, without `id`; but a listener that was
   allowed nobody else has no list any more, and may hear everyone.
   */
  lemma ForgettingOpensEmptyLists(routes: Routes, id: Id, listener: Id, source: Id)
    requires listener != id
    ensures Allows(Forgotten(routes, id), listener, source)
       <==> listener !in routes || routes[listener] <= {id} || (source != id && source in routes[listener])
    ensures Allows(Forgotten(routes, id), id, source)
  {
    if listener in routes {
      assert routes[listener] - {id} == {} <==> routes[listener] <= {id};
    }
  }

  lemma ForgettingKeepsIsolation(
      groups: Groups, memberGroup: Pointers, routes: Routes, id: Id, pending: set<Group>)
    requires IsolatedBut(groups, memberGroup, routes, pending)
    requires forall g :: id !in MembersOf(groups, g)
    ensures IsolatedBut(groups, memberGroup, Forgotten(routes, id), pending)
    ensures IsolatedBut(groups, memberGroup, routes - {id}, pending)
  {
    forall g, x
      ensures Belongs(groups, memberGroup, g, x)
           && (g !in pending ==> Isolated(groups, Forgotten(routes, id), g, x) && Isolated(groups, routes - {id}, g, x))
    {
      assert Belongs(groups, memberGroup, g, x);
      assert id !in MembersOf(groups, g);
      if g !in pending && g in groups && x in groups[g] {
        assert Isolated(groups, routes, g, x);
        if groups[g] != {x} {
          assert routes[x] - {id} == routes[x] == groups[g] - {x};
          assert routes[x] != {} by { OthersExist(groups[g], x); }
        }
      }
    }
  }

  lemma OthersExist(s: set<Id>, x: Id)
    requires x in s && s != {x}
    ensures s - {x} != {}
  {
  }

  /** The allow-list rule: a listener without a list may hear everyone. */
  predicate Allows(routes: Routes, listener: Id, source: Id) {
    listener in routes ==> source in routes[listener]
  }

  /**
   What membership means for hearing: a member may hear exactly the other members of its group,
   provided the group has any; alone in its group it may hear everyone.
   */
  lemma MemberHearsItsGroup(
      groups: Groups, memberGroup: Pointers, routes: Routes, group: Group, id: Id, other: Id)
    requires IsolatedBut(groups, memberGroup, routes, {})
    requires group in groups && id in groups[group] && other != id
    ensures Allows(routes, id, other) <==> other in groups[group] || groups[group] == {id}
  {
    assert Isolated(groups, routes, group, id);
  }

  /** Only participants that point at a group have an allow-list. */
  predicate OnlyMembersRouted(memberGroup: Pointers, routes: Routes) {
    routes.Keys <= memberGroup.Keys
  }

  /** A participant that points at no group hears everyone else, but for mutes. */
  lemma UngroupedHearsEveryone(memberGroup: Pointers, rules: Rules, id: Id, other: Id)
    requires OnlyMembersRouted(memberGroup, rules.routes) && id !in memberGroup
    ensures Hears(rules, id, other)
       <==> other != id && other !in rules.globalMute
            && !((id, other) in rules.listenerMute && rules.listenerMute[(id, other)])
  {
  }

  /**
   Whom a group member hears, by membership and mutes alone: of the sources, the others in its group, or
   everyone else if it has no other member, except those muted for all or by this listener.
   */
  lemma MemberHearsUnmutedMembers(
      groups: Groups, memberGroup: Pointers, rules: Rules, group: Group, id: Id, enabled: bool, sources: set<Id>,
      other: Id)
    requires IsolatedBut(groups, memberGroup, rules.routes, {}) && group in groups && id in groups[group]
    ensures other in Audible(enabled, sources, rules, id)
       <==> && enabled && other in sources && other != id
            && (other in groups[group] || groups[group] == {id})
            && other !in rules.globalMute
            && ((id, other) in rules.listenerMute ==> !rules.listenerMute[(id, other)])
  {
    assert Isolated(groups, rules.routes, group, id);
  }

  /** `l` is in none of the groups, leaving aside `group`. */
  ghost predicate Outside(groups: Groups, group: Group, l: Id) {
    forall g | g != group :: l !in MembersOf(groups, g)
  }

  ghost predicate Ungrouped(groups: Groups, l: Id) {
    forall g :: l !in MembersOf(groups, g)
  }

  lemma UngroupedWasOutside(before: Groups, after: Groups, members: set<Id>, group: Group, l: Id)
    requires OthersWithout(before, after, members, group) && MembersOf(after, group) == members
    requires Ungrouped(after, l)
    ensures Outside(before, group, l)
  {
    assert l !in MembersOf(after, group);
    forall g | g != group ensures l !in MembersOf(before, g) {
      assert l !in MembersOf(after, g);
    }
  }

  predicate SameRoute(before: Routes, after: Routes, l: Id) {
    (l in before <==> l in after) && (l in after ==> after[l] == before[l])
  }

  /**
   With `OnlyMembersRouted` and the isolation of the groups this determines all routes: members hear
   their group, and a participant in no group keeps what it had, be it a list left from a group
   whose members were replaced or none.
   */
  ghost predicate OthersKeepRoutes(groups: Groups, before: Routes, after: Routes) {
    forall l | Ungrouped(groups, l) :: SameRoute(before, after, l)
  }

  lemma MembershipIsExclusive(groups: Groups, memberGroup: Pointers, routes: Routes, g: Group, h: Group, id: Id)
    requires IsolatedBut(groups, memberGroup, routes, {})
    requires id in MembersOf(groups, g) && id in MembersOf(groups, h)
    ensures g == h
  {
    assert Belongs(groups, memberGroup, g, id) && Belongs(groups, memberGroup, h, id);
  }

  class MixGraph {
    var inputs: map<Id, Slot>
    var clock: Option<int>
    var tickCount: nat
    var listenerTicks: map<Id, nat>
    var mixingEnabled: bool
    var globalMute: set<Id>
    var listenerMute: map<(Id, Id), bool>
    var listenerRoutes: Routes
    var groups: Groups
    var memberGroup: Pointers

    function State(): Graph
      reads this
    {
      Graph(Media(clock, tickCount, inputs), listenerTicks)
    }

    ghost predicate Valid()
      reads this
    {
      && WellFormed(State())
      && IsolatedBut(groups, memberGroup, listenerRoutes, {})
      && OnlyMembersRouted(memberGroup, listenerRoutes)
    }

    function AsRoom(): Room
      reads this
    {
      Room(State(), mixingEnabled, Rules(listenerRoutes, globalMute, listenerMute))
    }

    /** The registered sources that reach `listener`: none while mixing is disabled. */
    function AudibleTo(listener: Id): set<Id>
      reads this
    {
      Audible(mixingEnabled, inputs.Keys, Rules(listenerRoutes, globalMute, listenerMute), listener)
    }

    constructor ()
      ensures Valid() && State() == EMPTY && mixingEnabled
      ensures groups == map[] && memberGroup == map[] && listenerRoutes == map[]
    {
      inputs, clock, tickCount, listenerTicks, mixingEnabled := map[], None, 0, map[], true;
      globalMute, listenerMute, listenerRoutes, groups, memberGroup := {}, map[], map[], map[], map[];
    }

    // ----- media

    method Register(id: Id)
      modifies `inputs
      ensures inputs == WithInput(old(inputs), id)
    {
      if id !in inputs {
        inputs := inputs[id := NewSlot()];
      }
    }

    method PushFrameAt(id: Id, pcm: seq<Byte>, now: int)
      requires Valid()
      modifies `inputs, `clock
      ensures Valid() && State() == Apply(old(State()), PushFrame(id, pcm, now))
    {
      if clock.None? {
        clock := Some(now);
      }
      Register(id);
      inputs := inputs[id := inputs[id].(queue := Push(inputs[id].queue, pcm, now))];
    }

    method AdvanceTo(now: int)
      modifies `inputs, `clock, `tickCount
      ensures State() == Advanced(old(State()), now)
      ensures old(clock).None? ==> clock == Some(now) && tickCount == old(tickCount) && inputs == old(inputs)
      ensures old(clock).Some? ==>
        var elapsed := Max(0, now - old(clock).value);
        tickCount == old(tickCount) + if elapsed >= 9 * TICK_US then 1 else elapsed / TICK_US
    {
      if clock.None? {
        clock := Some(now);
        return;
      }
      var ticks := Elapsed(clock.value, now);
      if ticks == 0 {
        assert TickAll(inputs, 0) == inputs;
        return;
      }
      var run := 1;
      if ticks > MAX_CATCHUP_TICKS {
        clock := Some(now);
      } else {
        clock := Some(clock.value + TICK_US * ticks);
        run := ticks;
      }
      PlaySources(run);
      tickCount := tickCount + run;
    }

    /** All sources over `run` ticks. */
    method PlaySources(run: nat)
      modifies `inputs
      ensures inputs == TickAll(old(inputs), run)
    {
      var todo := inputs.Keys;
      while todo != {}
        invariant todo <= inputs.Keys == old(inputs).Keys
        invariant forall id <- inputs ::
          inputs[id] == if id in todo then old(inputs)[id] else TickSlotTimes(old(inputs)[id], run)
        decreases todo
      {
        var id :| id in todo;
        var slot := PlayTicks(inputs[id], run);
        inputs := inputs[id := slot];
        todo := todo - {id};
      }
    }

    /** One source over `run` ticks. */
    method PlayTicks(before: Slot, run: nat) returns (slot: Slot)
      ensures slot == TickSlotTimes(before, run)
    {
      slot := before;
      for k := 0 to run
        invariant slot == TickSlotTimes(before, k)
      {
        var (queue, frame) := Pop(slot.queue);
        var history := slot.history;
        if |history| == HISTORY_TICKS {
          history := history[1..];
        }
        slot := slot.(queue := queue, history := history + [frame]);
      }
    }

    method NextListenerStep(listener: Id, now: int) returns (step: ListenerStep)
      requires WellFormed(State())
      modifies `listenerTicks
      ensures var (s, cursor) := StepAt(old(State()), listener, now);
              step == s && listenerTicks == old(listenerTicks)[listener := cursor]
    {
      var newest := Newest(clock, tickCount, now);
      var cursor := if listener in listenerTicks then listenerTicks[listener] else newest;
      step, cursor := MoveCursor(newest, tickCount, cursor);
      listenerTicks := listenerTicks[listener := cursor];
    }

    static method MoveCursor(newest: nat, tickCount: nat, start: nat) returns (step: ListenerStep, cursor: nat)
      requires newest <= tickCount && start <= tickCount
      ensures (step, cursor) == NextStep(newest, tickCount, start)
    {
      cursor := start;
      var trailing := if newest > cursor then newest - cursor else 0;
      var oldestHeld := if tickCount > HISTORY_TICKS - 1 then tickCount - (HISTORY_TICKS - 1) else 0;
      if trailing > 0 && cursor + 1 < oldestHeld {
        var heard, skipped;
        if newest < oldestHeld {
          heard, skipped := newest, trailing;
        } else if newest - oldestHeld >= MAX_CATCHUP_TICKS {
          heard, skipped := newest, trailing - 1;
        } else {
          heard, skipped := oldestHeld, oldestHeld - cursor - 1;
        }
        cursor := heard;
        return Jump(tickCount - heard, skipped), cursor;
      }
      if trailing <= 1 {
        if trailing == 1 {
          cursor := cursor + 1;
        }
        return Single(tickCount - cursor), cursor;
      }
      if trailing > MAX_CATCHUP_TICKS {
        cursor := newest;
        return Jump(tickCount - newest, trailing - 1), cursor;
      }
      cursor := cursor + 2;
      step := Merge(tickCount - (cursor - 1), tickCount - cursor);
    }

    /** The media part of a render: the clock, then the listener. */
    method MoveMedia(listener: Id, now: int) returns (step: ListenerStep)
      requires WellFormed(State())
      modifies `inputs, `clock, `tickCount, `listenerTicks
      ensures inputs.Keys == old(inputs).Keys
      ensures var g := Advanced(old(State()), now);
              step == StepAt(g, listener, now).0
              && State() == Graph(g.media, g.cursors[listener := StepAt(g, listener, now).1])
    {
      AdvanceTo(now);
      step := NextListenerStep(listener, now);
    }

    /**
     One render.  The media state moves as the model says, and the frame is the mix of what the step
     hears of every audible source, whatever order they are visited in.
     */
    method RenderOutput(listener: Id, now: int, pan: (Id, Frame) -> seq<Byte>) returns (out: seq<Byte>)
      requires Valid()
      modifies `inputs, `clock, `tickCount, `listenerTicks
      ensures Valid() && State() == Apply(old(State()), Render(listener, now, old(AudibleTo(listener))))
      ensures !mixingEnabled ==> out == seq(FRAME_BYTES, _ => 0)
      ensures mixingEnabled ==>
        var g := Advanced(old(State()), now);
        IsMixOf(out, old(AudibleTo(listener)), StepAt(g, listener, now).0, g.media.inputs, pan)
      ensures listener !in old(AudibleTo(listener)) && Rendered(old(AsRoom()), listener, now, pan, out)
    {
      out := RenderMedia(listener, now, pan);
    }

    /** The part of a render that neither reads nor concerns the groups. */
    method RenderMedia(listener: Id, now: int, pan: (Id, Frame) -> seq<Byte>) returns (out: seq<Byte>)
      requires WellFormed(State())
      modifies `inputs, `clock, `tickCount, `listenerTicks
      ensures State() == Apply(old(State()), Render(listener, now, old(AudibleTo(listener))))
      ensures !mixingEnabled ==> out == seq(FRAME_BYTES, _ => 0)
      ensures mixingEnabled ==>
        var g := Advanced(old(State()), now);
        IsMixOf(out, old(AudibleTo(listener)), StepAt(g, listener, now).0, g.media.inputs, pan)
    {
      ghost var all := AudibleTo(listener);
      RenderInParts(State(), listener, now, all);
      var step := MoveMedia(listener, now);
      assert AudibleTo(listener) == all;
      out := MixIfEnabled(listener, step, pan);
    }

    /** The frame of one step: silence while mixing is disabled. */
    method MixIfEnabled(listener: Id, step: ListenerStep, pan: (Id, Frame) -> seq<Byte>) returns (out: seq<Byte>)
      modifies `inputs
      ensures inputs == Credit(old(inputs), old(AudibleTo(listener)), step)
      ensures !mixingEnabled ==> out == seq(FRAME_BYTES, _ => 0)
      ensures mixingEnabled ==> IsMixOf(out, old(AudibleTo(listener)), step, old(inputs), pan)
    {
      if !mixingEnabled {
        assert Credit(inputs, {}, step) == inputs;
        return seq(FRAME_BYTES, _ => 0);
      }
      out := MixStep(listener, step, pan);
    }

    /** Mixes and credits what one step hears. */
    method MixStep(listener: Id, step: ListenerStep, pan: (Id, Frame) -> seq<Byte>) returns (out: seq<Byte>)
      requires mixingEnabled
      modifies `inputs
      ensures inputs == Credit(old(inputs), old(AudibleTo(listener)), step)
      ensures IsMixOf(out, old(AudibleTo(listener)), step, old(inputs), pan)
    {
      var sources, heard := CollectSources(listener, step, pan);
      ghost var all := AudibleTo(listener);
      assert Among(heard) == all;
      CreditListener(heard, step);
      out := MixBus.Mix(sources);
      assert IsMixOf(out, all, step, old(inputs), pan) by {
        MixOfAll(out, heard, all, step, old(inputs), pan);
      }
    }

    /** Visits the sources in some order and keeps the audible ones. */
    method CollectSources(listener: Id, step: ListenerStep, pan: (Id, Frame) -> seq<Byte>)
      returns (sources: seq<seq<Byte>>, heard: seq<Id>)
      requires mixingEnabled
      ensures Enumerates(heard, AudibleTo(listener)) && listener !in heard
      ensures sources == Panned(heard, step, inputs, pan)
    {
      sources, heard := [], [];
      var todo := inputs.Keys;
      while todo != {}
        invariant todo <= inputs.Keys
        invariant Enumerates(heard, AudibleTo(listener) - todo)
        invariant sources == Panned(heard, step, inputs, pan)
        decreases todo
      {
        var id :| id in todo;
        ghost var before := AudibleTo(listener) - todo;
        todo := todo - {id};
        if Hears(Rules(listenerRoutes, globalMute, listenerMute), listener, id) {
          assert AudibleTo(listener) - todo == before + {id};
          assert Panned(heard + [id], step, inputs, pan)
            == Panned(heard, step, inputs, pan) + [pan(id, Heard(step, inputs[id].history))];
          sources := sources + [pan(id, Heard(step, inputs[id].history))];
          heard := heard + [id];
        } else {
          assert AudibleTo(listener) - todo == before;
        }
      }
      assert AudibleTo(listener) - {} == AudibleTo(listener);
    }

    /** Counts what a late listener merged or skipped against every source it heard. */
    method CreditListener(heard: seq<Id>, step: ListenerStep)
      requires Distinct(heard)
      modifies `inputs
      ensures inputs == Credit(old(inputs), Among(heard), step)
    {
      var merged, skipped := MergedTicks(step), SkippedTicks(step);
      if merged + skipped > 0 {
        for k := 0 to |heard|
          invariant inputs == Credit(old(inputs), Among(heard[..k]), step)
        {
          var id := heard[k];
          assert heard[..k + 1] == heard[..k] + [id];
          if id in inputs {
            inputs := inputs[id := inputs[id].(catchupCompressed := inputs[id].catchupCompressed + merged,
                                               skipped := inputs[id].skipped + skipped)];
          }
        }
        assert heard[..|heard|] == heard;
      }
    }

    // ----- groups

    /** Forgets a participant: its source, its listener position, and its place in mutes, routes and groups. */
    method RemoveInputSlot(id: Id)
      requires Valid()
      modifies this
      ensures Valid() && State() == Apply(old(State()), RemoveInput(id))
      ensures globalMute == old(globalMute) - {id}
      ensures listenerMute == map k | k in old(listenerMute) && k.0 != id && k.1 != id :: old(listenerMute)[k]
      ensures memberGroup == old(memberGroup) - {id}
      ensures forall g :: MembersOf(groups, g) == MembersOf(old(groups), g) - {id}
      ensures id !in listenerRoutes && forall l | l in listenerRoutes :: id !in listenerRoutes[l]
      ensures OthersKeepRoutes(groups, Forgotten(old(listenerRoutes), id), listenerRoutes)
      ensures mixingEnabled == old(mixingEnabled)
    {
      inputs := inputs - {id};
      listenerTicks := listenerTicks - {id};
      globalMute := globalMute - {id};
      listenerMute := map k | k in listenerMute && k.0 != id && k.1 != id :: listenerMute[k];
      ForgetMember(id);
    }

    /** Takes a participant out of routes and groups. */
    method ForgetMember(id: Id)
      requires IsolatedBut(groups, memberGroup, listenerRoutes, {}) && OnlyMembersRouted(memberGroup, listenerRoutes)
      modifies `groups, `memberGroup, `listenerRoutes
      ensures IsolatedBut(groups, memberGroup, listenerRoutes, {}) && OnlyMembersRouted(memberGroup, listenerRoutes)
      ensures memberGroup == old(memberGroup) - {id}
      ensures forall g :: MembersOf(groups, g) == MembersOf(old(groups), g) - {id}
      ensures id !in listenerRoutes && forall l | l in listenerRoutes :: id !in listenerRoutes[l]
      ensures OthersKeepRoutes(groups, Forgotten(old(listenerRoutes), id), listenerRoutes)
    {
      LeavingLeavesAll(groups, memberGroup, listenerRoutes, id, memberGroup - {id});
      ForgettingKeepsIsolation(Left(groups, memberGroup, id), memberGroup - {id}, listenerRoutes, id,
                               Pending(memberGroup, id));
      listenerRoutes := Forgotten(listenerRoutes, id);
      if id in memberGroup {
        var group := memberGroup[id];
        groups := Left(groups, memberGroup, id);
        memberGroup := memberGroup - {id};
        RebuildGroupRoutes(group, {group});
        forall l | l in listenerRoutes && l in MembersOf(groups, group) ensures id !in listenerRoutes[l] {
          assert Isolated(groups, listenerRoutes, group, l);
        }
      } else {
        assert memberGroup - {id} == memberGroup;
      }
    }

    /** Points a participant at `group` and takes it out of any other. */
    method Reassign(id: Id, group: Group)
      requires IsolatedBut(groups, memberGroup, listenerRoutes, {}) && OnlyMembersRouted(memberGroup, listenerRoutes)
      modifies `groups, `memberGroup, `listenerRoutes
      ensures IsolatedBut(groups, memberGroup, listenerRoutes, {}) && OnlyMembersRouted(memberGroup, listenerRoutes)
      ensures memberGroup == old(memberGroup)[id := group]
      ensures OthersWithout(old(groups), groups, {id}, group)
      ensures forall l | Outside(old(groups), group, l) :: SameRoute(old(listenerRoutes), listenerRoutes, l)
    {
      LeavingLeavesAll(groups, memberGroup, listenerRoutes, id, memberGroup[id := group]);
      if id in memberGroup && memberGroup[id] != group {
        var previous := memberGroup[id];
        groups := Left(groups, memberGroup, id);
        memberGroup := memberGroup[id := group];
        RebuildGroupRoutes(previous, {previous});
      } else {
        assert id in memberGroup ==> memberGroup[id := group] == memberGroup;
        memberGroup := memberGroup[id := group];
      }
    }

    /** Replaces a group's members; each new member leaves the group it was in. */
    method SetGroupMembers(group: Group, members: seq<Id>)
      requires Valid()
      modifies `groups, `memberGroup, `listenerRoutes
      ensures Valid() && group in groups && groups[group] == Among(members)
      ensures OthersWithout(old(groups), groups, Among(members), group)
      ensures memberGroup == Pointing(old(memberGroup), Among(members), group)
      ensures OthersKeepRoutes(groups, old(listenerRoutes), listenerRoutes)
    {
      ghost var before := groups;
      var memberSet := Among(members);
      ReassignAll(memberSet, group);
      JoiningKeepsOthers(groups, memberGroup, listenerRoutes, group, memberSet, {});
      groups := groups[group := memberSet];
      RebuildGroupRoutes(group, {group});
      forall l | Ungrouped(groups, l) ensures Outside(before, group, l) {
        UngroupedWasOutside(before, groups, memberSet, group, l);
      }
    }

    method ReassignAll(memberSet: set<Id>, group: Group)
      requires IsolatedBut(groups, memberGroup, listenerRoutes, {}) && OnlyMembersRouted(memberGroup, listenerRoutes)
      modifies `groups, `memberGroup, `listenerRoutes
      ensures IsolatedBut(groups, memberGroup, listenerRoutes, {}) && OnlyMembersRouted(memberGroup, listenerRoutes)
      ensures OthersWithout(old(groups), groups, memberSet, group)
      ensures memberGroup == Pointing(old(memberGroup), memberSet, group)
      ensures forall l | Outside(old(groups), group, l) :: SameRoute(old(listenerRoutes), listenerRoutes, l)
    {
      var todo := memberSet;
      ghost var done: set<Id> := {};
      while todo != {}
        invariant done + todo == memberSet
        invariant IsolatedBut(groups, memberGroup, listenerRoutes, {}) && OnlyMembersRouted(memberGroup, listenerRoutes)
        invariant OthersWithout(old(groups), groups, done, group)
        invariant memberGroup == Pointing(old(memberGroup), done, group)
        invariant forall l | Outside(old(groups), group, l) ::
          Outside(groups, group, l) && SameRoute(old(listenerRoutes), listenerRoutes, l)
        decreases todo
      {
        var id :| id in todo;
        ghost var before := groups;
        PointingMore(old(memberGroup), done, id, group);
        Reassign(id, group);
        OthersWithoutMore(old(groups), before, groups, done, id, group);
        todo, done := todo - {id}, done + {id};
      }
      assert done == memberSet;
    }

    /** Moves a participant into a group, out of any other. */
    method MoveToGroup(id: Id, group: Group)
      requires Valid()
      modifies `groups, `memberGroup, `listenerRoutes
      ensures Valid() && group in groups && groups[group] == MembersOf(old(groups), group) + {id}
      ensures OthersWithout(old(groups), groups, {id}, group)
      ensures memberGroup == old(memberGroup)[id := group]
      ensures OthersKeepRoutes(groups, old(listenerRoutes), listenerRoutes)
    {
      ghost var before, pending := groups, Pending(memberGroup, id);
      LeavingLeavesAll(groups, memberGroup, listenerRoutes, id, memberGroup[id := group]);
      var previous := if id in memberGroup then Some(memberGroup[id]) else None;
      groups := Left(groups, memberGroup, id);
      memberGroup := memberGroup[id := group];
      var members := MembersOf(groups, group) + {id};
      assert members == MembersOf(before, group) + {id};
      MembersPoint(groups, memberGroup, listenerRoutes, group, pending);
      JoiningKeepsOthers(groups, memberGroup, listenerRoutes, group, members, pending);
      groups := groups[group := members];
      RebuildBoth(previous, group);
    }

    /** Recomputes the allow-lists of the group that was left, if it is another one, and of the one joined. */
    method RebuildBoth(previous: Option<Group>, group: Group)
      requires var left := if previous.Some? then {previous.value} else {};
               IsolatedBut(groups, memberGroup, listenerRoutes, left + {group})
      requires OnlyMembersRouted(memberGroup, listenerRoutes)
      modifies `listenerRoutes
      ensures IsolatedBut(groups, memberGroup, listenerRoutes, {}) && OnlyMembersRouted(memberGroup, listenerRoutes)
      ensures OthersKeepRoutes(groups, old(listenerRoutes), listenerRoutes)
    {
      if previous.Some? && previous.value != group {
        RebuildGroupRoutes(previous.value, {previous.value} + {group});
        assert {previous.value} + {group} - {previous.value} == {group};
      } else if previous.Some? {
        assert {previous.value} + {group} == {group};
      } else {
        assert {} + {group} == {group};
      }
      RebuildGroupRoutes(group, {group});
    }

    method RemoveFromGroup(id: Id)
      requires Valid()
      modifies `groups, `memberGroup, `listenerRoutes
      ensures Valid() && forall other :: Allows(listenerRoutes, id, other)
      ensures memberGroup == old(memberGroup) - {id}
      ensures forall g :: MembersOf(groups, g) == MembersOf(old(groups), g) - {id}
      ensures OthersKeepRoutes(groups, old(listenerRoutes) - {id}, listenerRoutes)
    {
      if id in memberGroup {
        LeavingLeavesAll(groups, memberGroup, listenerRoutes, id, memberGroup - {id});
        ForgettingKeepsIsolation(Left(groups, memberGroup, id), memberGroup - {id}, listenerRoutes, id,
                                 Pending(memberGroup, id));
        var group := memberGroup[id];
        groups := Left(groups, memberGroup, id);
        memberGroup := memberGroup - {id};
        listenerRoutes := listenerRoutes - {id};
        RebuildGroupRoutes(group, {group});
      } else {
        LeavingLeavesAll(groups, memberGroup, listenerRoutes, id, memberGroup);
        assert memberGroup - {id} == memberGroup;
      }
    }

    /** Recomputes the allow-lists of one group's members and drops those of participants in no group. */
    method RebuildGroupRoutes(group: Group, ghost pending: set<Group>)
      requires IsolatedBut(groups, memberGroup, listenerRoutes, pending)
      modifies `listenerRoutes
      ensures IsolatedBut(groups, memberGroup, listenerRoutes, pending - {group})
      ensures forall l | l !in MembersOf(groups, group) ::
                && (l in listenerRoutes <==> l in old(listenerRoutes) && (group in groups ==> l in memberGroup))
                && (l in listenerRoutes ==> listenerRoutes[l] == old(listenerRoutes)[l])
      ensures OnlyMembersRouted(memberGroup, old(listenerRoutes)) ==>
                && OnlyMembersRouted(memberGroup, listenerRoutes)
                && forall l | l !in MembersOf(groups, group) :: SameRoute(old(listenerRoutes), listenerRoutes, l)
    {
      if group !in groups {
        return;
      }
      var members := groups[group];
      var todo := members;
      while todo != {}
        invariant todo <= members
        invariant forall l | l !in members :: l in listenerRoutes <==> l in old(listenerRoutes)
        invariant forall l | l !in members && l in listenerRoutes :: listenerRoutes[l] == old(listenerRoutes)[l]
        invariant forall l | l in members && l !in todo :: Isolated(groups, listenerRoutes, group, l)
        decreases todo
      {
        var listener :| listener in todo;
        var sources := members - {listener};
        if sources == {} {
          assert members == {listener};
          listenerRoutes := listenerRoutes - {listener};
        } else {
          listenerRoutes := listenerRoutes[listener := sources];
        }
        todo := todo - {listener};
      }
      ghost var rebuilt := listenerRoutes;
      listenerRoutes := map l | l in listenerRoutes && l in memberGroup :: listenerRoutes[l];
      forall g, id
        ensures Belongs(groups, memberGroup, g, id)
             && (g !in pending - {group} ==> Isolated(groups, listenerRoutes, g, id))
      {
        assert Belongs(groups, memberGroup, g, id) && Belongs(groups, memberGroup, group, id);
        if g !in pending - {group} && g in groups && id in groups[g] {
          if g == group {
            assert Isolated(groups, rebuilt, group, id);
          } else {
            assert Isolated(groups, old(listenerRoutes), g, id);
          }
        }
      }
    }
  }
}
