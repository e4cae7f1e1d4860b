/**
 The dependency closure of a Cargo resolve graph: the packages without a registry source that can be
 reached from a root package, sorted by name.
 */
module DependencyClosure {
  import opened Wrappers
  import opened Sequences

  type Id = string

  datatype Package = Package(id: Id, name: string, version: string, source: Option<string>, manifestPath: string)

  datatype Node = Node(id: Id, features: seq<string>, deps: seq<Id>)

  datatype Metadata = Metadata(packages: seq<Package>, nodes: seq<Node>)

  /** What the closure reports of a package. */
  datatype Crate = Crate(name: string, version: string, manifestPath: string, crateRoot: string, features: seq<string>)

  /** The path library: how it writes a path, and the directory it is in. */
  datatype Paths = Paths(written: string -> string, parent: string -> string)

  datatype Error =
    | PackageNotInMetadata(name: string)
    | NoResolveNode(name: string)
    | UnknownId(id: Id)

  // ----- sorting

  /** Strings by code points, a prefix first. */
  predicate LexLe(a: string, b: string) {
    a == "" || (b != "" && (a[0] < b[0] || (a[0] == b[0] && LexLe(a[1..], b[1..]))))
  }

  lemma {:induction false} LexTotal(a: string, b: string)
    ensures LexLe(a, b) || LexLe(b, a)
  {
    if a != "" && b != "" {
      LexTotal(a[1..], b[1..]);
    }
  }

  lemma {:induction false} LexTransitive(a: string, b: string, c: string)
    requires LexLe(a, b) && LexLe(b, c)
    ensures LexLe(a, c)
  {
    if a != "" && b != "" && c != "" && a[0] == b[0] == c[0] {
      LexTransitive(a[1..], b[1..], c[1..]);
    }
  }

  /** The order of names: the first difference decides, by code points; a prefix comes first. */
  lemma {:induction false} LexFirstDifference(a: string, b: string) returns (n: nat)
    ensures n <= |a| && n <= |b| && a[..n] == b[..n]
    ensures n < |a| && n < |b| ==> a[n] != b[n]
    ensures LexLe(a, b) <==> n == |a| || (n < |b| && a[n] < b[n])
  {
    n := 0;
    if a != "" && b != "" && a[0] == b[0] {
      var rest := LexFirstDifference(a[1..], b[1..]);
      n := rest + 1;
      assert a == [a[0]] + a[1..] && b == [b[0]] + b[1..];
    }
  }

  ghost predicate SortedBy<T>(key: T -> string, s: seq<T>) {
    forall i, j | 0 <= i < j < |s| :: LexLe(key(s[i]), key(s[j]))
  }

  function InsertBy<T>(key: T -> string, x: T, s: seq<T>): seq<T> {
    if s == [] || !LexLe(key(s[0]), key(x)) then [x] + s else [s[0]] + InsertBy(key, x, s[1..])
  }

  /** Insertion by insertion, each behind what is not greater. */
  function SortBy<T>(key: T -> string, s: seq<T>): seq<T> {
    if s == [] then [] else InsertBy(key, s[|s| - 1], SortBy(key, s[..|s| - 1]))
  }

  lemma {:induction false} InsertByKeeps<T>(key: T -> string, x: T, s: seq<T>)
    ensures multiset(InsertBy(key, x, s)) == multiset(s) + multiset{x}
  {
    if s != [] && LexLe(key(s[0]), key(x)) {
      assert s == [s[0]] + s[1..];
      InsertByKeeps(key, x, s[1..]);
    }
  }

  lemma {:induction false} InsertBySorts<T>(key: T -> string, x: T, s: seq<T>)
    requires SortedBy(key, s)
    ensures SortedBy(key, InsertBy(key, x, s))
  {
    if s != [] {
      if LexLe(key(s[0]), key(x)) {
        InsertBySorts(key, x, s[1..]);
        InsertByKeeps(key, x, s[1..]);
        var rest := InsertBy(key, x, s[1..]);
        forall j | 0 <= j < |rest| ensures LexLe(key(s[0]), key(rest[j])) {
          assert rest[j] in multiset(rest);
          assert rest[j] == x || rest[j] in s[1..];
        }
      } else {
        LexTotal(key(s[0]), key(x));
        forall j | 0 <= j < |s| ensures LexLe(key(x), key(s[j])) {
          if j > 0 {
            LexTransitive(key(x), key(s[0]), key(s[j]));
          }
        }
      }
    }
  }

  lemma {:induction false} SortBySorts<T>(key: T -> string, s: seq<T>)
    ensures SortedBy(key, SortBy(key, s)) && multiset(SortBy(key, s)) == multiset(s)
  {
    if s != [] {
      var n := |s| - 1;
      assert s == s[..n] + [s[n]];
      SortBySorts(key, s[..n]);
      InsertByKeeps(key, s[n], SortBy(key, s[..n]));
      InsertBySorts(key, s[n], SortBy(key, s[..n]));
    }
  }

  /** The elements of one key, in order. */
  function OfKey<T>(key: T -> string, k: string, s: seq<T>): seq<T> {
    if s == [] then [] else (if key(s[0]) == k then [s[0]] else []) + OfKey(key, k, s[1..])
  }

  lemma {:induction false} OfKeyConcat<T>(key: T -> string, k: string, a: seq<T>, b: seq<T>)
    ensures OfKey(key, k, a + b) == OfKey(key, k, a) + OfKey(key, k, b)
  {
    if a == [] {
      assert a + b == b;
    } else {
      assert (a + b)[1..] == a[1..] + b;
      OfKeyConcat(key, k, a[1..], b);
      var first := if key(a[0]) == k then [a[0]] else [];
      assert first + (OfKey(key, k, a[1..]) + OfKey(key, k, b)) == first + OfKey(key, k, a[1..]) + OfKey(key, k, b);
    }
  }

  lemma {:induction false} OfKeyNone<T>(key: T -> string, k: string, s: seq<T>)
    requires forall i | 0 <= i < |s| :: key(s[i]) != k
    ensures OfKey(key, k, s) == []
  {
    if s != [] {
      OfKeyNone(key, k, s[1..]);
    }
  }

  lemma {:induction false} LexReflexive(a: string)
    ensures LexLe(a, a)
  {
    if a != "" {
      LexReflexive(a[1..]);
    }
  }

  lemma {:induction false} InsertByIsStable<T>(key: T -> string, x: T, s: seq<T>, k: string)
    requires SortedBy(key, s)
    ensures OfKey(key, k, InsertBy(key, x, s)) == OfKey(key, k, s + [x])
  {
    OfKeyConcat(key, k, s, [x]);
    if s != [] {
      LexReflexive(key(s[0]));
      if LexLe(key(s[0]), key(x)) {
        InsertByIsStable(key, x, s[1..], k);
        OfKeyConcat(key, k, s[1..], [x]);
        assert ([s[0]] + InsertBy(key, x, s[1..]))[1..] == InsertBy(key, x, s[1..]);
      } else if key(x) == k {
        OfKeyNone(key, k, s);
        OfKeyConcat(key, k, [x], s);
      } else {
        OfKeyConcat(key, k, [x], s);
        assert OfKey(key, k, [x]) == [] by { assert [x][1..] == []; }
      }
    }
  }

  /** Sorting keeps the order of elements with equal keys. */
  lemma {:induction false} SortByIsStable<T>(key: T -> string, s: seq<T>, k: string)
    ensures OfKey(key, k, SortBy(key, s)) == OfKey(key, k, s)
  {
    if s != [] {
      var n := |s| - 1;
      SortByIsStable(key, s[..n], k);
      SortBySorts(key, s[..n]);
      InsertByIsStable(key, s[n], SortBy(key, s[..n]), k);
      OfKeyConcat(key, k, SortBy(key, s[..n]), [s[n]]);
      OfKeyConcat(key, k, s[..n], [s[n]]);
      assert s == s[..n] + [s[n]];
    }
  }

  // ----- the graph

  /** The last package of each id. */
  function PackagesById(packages: seq<Package>): map<Id, Package> {
    if packages == [] then map[]
    else
      var p := packages[|packages| - 1];
      PackagesById(packages[..|packages| - 1])[p.id := p]
  }

  function NodesById(nodes: seq<Node>): map<Id, Node> {
    if nodes == [] then map[]
    else
      var n := nodes[|nodes| - 1];
      NodesById(nodes[..|nodes| - 1])[n.id := n]
  }

  /** The id of the first package of a name. */
  function RootId(packages: seq<Package>, name: string): Option<Id> {
    if packages == [] then None
    else if packages[0].name == name then Some(packages[0].id)
    else RootId(packages[1..], name)
  }

  /** Of several packages with one id the last one is taken; no other id is known. */
  lemma {:induction false} LastPackageIsTaken(packages: seq<Package>, id: Id) returns (i: nat)
    ensures id in PackagesById(packages) <==> exists p | p in packages :: p.id == id
    ensures id in PackagesById(packages) ==>
              && i < |packages| && packages[i].id == id && PackagesById(packages)[id] == packages[i]
              && forall j | i < j < |packages| :: packages[j].id != id
  {
    i := 0;
    if packages != [] {
      var n := |packages| - 1;
      assert packages == packages[..n] + [packages[n]];
      if packages[n].id == id {
        i := n;
      } else {
        i := LastPackageIsTaken(packages[..n], id);
      }
    }
  }

  lemma {:induction false} LastNodeIsTaken(nodes: seq<Node>, id: Id) returns (i: nat)
    ensures id in NodesById(nodes) <==> exists n | n in nodes :: n.id == id
    ensures id in NodesById(nodes) ==>
              && i < |nodes| && nodes[i].id == id && NodesById(nodes)[id] == nodes[i]
              && forall j | i < j < |nodes| :: nodes[j].id != id
  {
    i := 0;
    if nodes != [] {
      var n := |nodes| - 1;
      assert nodes == nodes[..n] + [nodes[n]];
      if nodes[n].id == id {
        i := n;
      } else {
        i := LastNodeIsTaken(nodes[..n], id);
      }
    }
  }

  /** Of several packages with the root's name the first one is taken. */
  lemma {:induction false} FirstNamedIsRoot(packages: seq<Package>, name: string) returns (i: nat)
    ensures RootId(packages, name).Some? <==> exists p | p in packages :: p.name == name
    ensures RootId(packages, name).Some? ==>
              && i < |packages| && packages[i].name == name && RootId(packages, name) == Some(packages[i].id)
              && forall j | 0 <= j < i :: packages[j].name != name
  {
    i := 0;
    if packages != [] && packages[0].name != name {
      assert packages == [packages[0]] + packages[1..];
      var rest := FirstNamedIsRoot(packages[1..], name);
      i := rest + 1;
      assert forall j | 1 <= j < |packages| :: packages[j] == packages[1..][j - 1];
    }
  }

  ghost predicate IsPath(nodes: map<Id, Node>, path: seq<Id>) {
    && path != []
    && forall i | 0 <= i < |path| - 1 :: path[i] in nodes && path[i + 1] in nodes[path[i]].deps
  }

  /** Some dependency path leads from `root` to `id`. */
  ghost predicate Reachable(nodes: map<Id, Node>, root: Id, id: Id) {
    exists path :: IsPath(nodes, path) && path[0] == root && path[|path| - 1] == id
  }

  lemma ReachableRoot(nodes: map<Id, Node>, root: Id)
    ensures Reachable(nodes, root, root)
  {
    assert IsPath(nodes, [root]);
  }

  lemma ReachableStep(nodes: map<Id, Node>, root: Id, id: Id, dep: Id)
    requires Reachable(nodes, root, id) && id in nodes && dep in nodes[id].deps
    ensures Reachable(nodes, root, dep)
  {
    var path :| IsPath(nodes, path) && path[0] == root && path[|path| - 1] == id;
    assert IsPath(nodes, path + [dep]);
  }

  /** A set closed under dependencies holds everything reachable from its members. */
  lemma {:induction false} ClosedHoldsPath(nodes: map<Id, Node>, closed: set<Id>, path: seq<Id>)
    requires IsPath(nodes, path) && path[0] in closed
    requires forall id, dep | id in closed && id in nodes && dep in nodes[id].deps :: dep in closed
    ensures path[|path| - 1] in closed
  {
    if |path| > 1 {
      assert path[1] in nodes[path[0]].deps;
      assert IsPath(nodes, path[1..]);
      ClosedHoldsPath(nodes, closed, path[1..]);
    }
  }

  // ----- the closure

  function CrateOf(packages: map<Id, Package>, nodes: map<Id, Node>, paths: Paths, id: Id): Crate {
    if id in packages && id in nodes then
      var p := packages[id];
      Crate(p.name, p.version, paths.written(p.manifestPath), paths.written(paths.parent(p.manifestPath)),
            SortBy(s => s, nodes[id].features))
    else Crate("", "", "", "", [])
  }

  /** What is reported of a known package: its own fields, and its node's features in order. */
  lemma CrateReports(packages: map<Id, Package>, nodes: map<Id, Node>, paths: Paths, id: Id)
    requires id in packages && id in nodes
    ensures var c, p := CrateOf(packages, nodes, paths, id), packages[id];
            && c.name == p.name && c.version == p.version
            && c.manifestPath == paths.written(p.manifestPath)
            && c.crateRoot == paths.written(paths.parent(p.manifestPath))
            && multiset(c.features) == multiset(nodes[id].features) && SortedBy(s => s, c.features)
  {
    SortBySorts(s => s, nodes[id].features);
  }

  function CratesOf(packages: map<Id, Package>, nodes: map<Id, Node>, paths: Paths, ids: seq<Id>): seq<Crate> {
    Image(id => CrateOf(packages, nodes, paths, id), ids)
  }

  lemma OneMoreCrate(packages: map<Id, Package>, nodes: map<Id, Node>, paths: Paths, ids: seq<Id>, id: Id)
    ensures CratesOf(packages, nodes, paths, ids + [id])
         == CratesOf(packages, nodes, paths, ids) + [CrateOf(packages, nodes, paths, id)]
  {
  }

  function Name(c: Crate): string {
    c.name
  }

  /** The reachable packages that have no registry source. */
  ghost predicate IsLocal(packages: map<Id, Package>, nodes: map<Id, Node>, root: Id, id: Id) {
    Reachable(nodes, root, id) && id in packages && packages[id].source.None?
  }

  /** `ids` are exactly the local packages, each once. */
  ghost predicate ListsLocal(ids: seq<Id>, packages: map<Id, Package>, nodes: map<Id, Node>, root: Id) {
    Distinct(ids) && forall id :: id in ids <==> IsLocal(packages, nodes, root, id)
  }

  /** The local packages in the order of their first visit, breadth first; `seen` are visited already. */
  function VisitOrder(packages: map<Id, Package>, nodes: map<Id, Node>, seen: set<Id>, queue: seq<Id>): seq<Id>
    decreases packages.Keys * nodes.Keys - seen, |queue|
  {
    if queue == [] then []
    else if queue[0] in seen || queue[0] !in packages || queue[0] !in nodes
    then VisitOrder(packages, nodes, seen, queue[1..])
    else
      var id := queue[0];
      (if packages[id].source.None? then [id] else [])
      + VisitOrder(packages, nodes, seen + {id}, queue[1..] + nodes[id].deps)
  }

  /** `ids` begin the visit order, and what is still to visit gives the rest. */
  predicate InOrder(
      packages: map<Id, Package>, nodes: map<Id, Node>, root: Id, seen: set<Id>, queue: seq<Id>, ids: seq<Id>)
  {
    VisitOrder(packages, nodes, {}, [root]) == ids + VisitOrder(packages, nodes, seen, queue)
  }

  lemma VisitKeepsOrder(
      packages: map<Id, Package>, nodes: map<Id, Node>, root: Id, seen: set<Id>, queue: seq<Id>, ids: seq<Id>)
    requires InOrder(packages, nodes, root, seen, queue, ids) && queue != []
    requires queue[0] in packages && queue[0] in nodes && queue[0] !in seen
    ensures var id := queue[0];
            InOrder(packages, nodes, root, seen + {id}, queue[1..] + nodes[id].deps,
                    if packages[id].source.None? then ids + [id] else ids)
  {
    var id := queue[0];
    var rest := VisitOrder(packages, nodes, seen + {id}, queue[1..] + nodes[id].deps);
    assert ids + ([id] + rest) == ids + [id] + rest;
  }

  ghost predicate AllReachable(nodes: map<Id, Node>, root: Id, seen: set<Id>, queue: seq<Id>) {
    forall id | id in seen || id in queue :: Reachable(nodes, root, id)
  }

  /** The dependencies of what is visited are visited or queued. */
  ghost predicate DepsCovered(nodes: map<Id, Node>, seen: set<Id>, queue: seq<Id>) {
    forall id, dep | id in seen && id in nodes && dep in nodes[id].deps :: dep in seen || dep in queue
  }

  ghost predicate ListsVisited(packages: map<Id, Package>, seen: set<Id>, ids: seq<Id>) {
    Distinct(ids) && forall id :: id in ids <==> id in seen && id in packages && packages[id].source.None?
  }

  /** The state of the walk: `seen` is visited, `queue` is still to visit, `ids` the local packages visited. */
  ghost predicate Walking(
      packages: map<Id, Package>, nodes: map<Id, Node>, root: Id, seen: set<Id>, queue: seq<Id>, ids: seq<Id>)
  {
    && seen <= packages.Keys * nodes.Keys
    && (root in seen || root in queue)
    && AllReachable(nodes, root, seen, queue) && DepsCovered(nodes, seen, queue) && ListsVisited(packages, seen, ids)
  }

  lemma VisitKeepsWalking(
      packages: map<Id, Package>, nodes: map<Id, Node>, root: Id, seen: set<Id>, queue: seq<Id>, ids: seq<Id>)
    requires Walking(packages, nodes, root, seen, queue, ids) && queue != []
    requires queue[0] in packages && queue[0] in nodes && queue[0] !in seen
    ensures var id := queue[0];
            Walking(packages, nodes, root, seen + {id}, queue[1..] + nodes[id].deps,
                    if packages[id].source.None? then ids + [id] else ids)
  {
    var id := queue[0];
    assert queue == [id] + queue[1..];
    VisitReaches(nodes, root, seen, queue);
    VisitCovers(nodes, seen, queue);
    VisitLists(packages, seen, ids, id);
  }

  lemma VisitReaches(nodes: map<Id, Node>, root: Id, seen: set<Id>, queue: seq<Id>)
    requires queue != [] && queue[0] in nodes && AllReachable(nodes, root, seen, queue)
    ensures AllReachable(nodes, root, seen + {queue[0]}, queue[1..] + nodes[queue[0]].deps)
  {
    var first := queue[0];
    forall dep | dep in nodes[first].deps ensures Reachable(nodes, root, dep) {
      ReachableStep(nodes, root, first, dep);
    }
  }

  lemma VisitCovers(nodes: map<Id, Node>, seen: set<Id>, queue: seq<Id>)
    requires queue != [] && queue[0] in nodes && DepsCovered(nodes, seen, queue)
    ensures DepsCovered(nodes, seen + {queue[0]}, queue[1..] + nodes[queue[0]].deps)
  {
    assert queue == [queue[0]] + queue[1..];
  }

  lemma VisitLists(packages: map<Id, Package>, seen: set<Id>, ids: seq<Id>, id: Id)
    requires ListsVisited(packages, seen, ids) && id in packages && id !in seen
    ensures ListsVisited(packages, seen + {id}, if packages[id].source.None? then ids + [id] else ids)
  {
  }

  lemma WalkedEverything(packages: map<Id, Package>, nodes: map<Id, Node>, root: Id, seen: set<Id>, ids: seq<Id>)
    requires Walking(packages, nodes, root, seen, [], ids)
    ensures forall id | Reachable(nodes, root, id) :: id in packages && id in nodes
    ensures ListsLocal(ids, packages, nodes, root)
  {
    forall id | Reachable(nodes, root, id) ensures id in seen {
      var path :| IsPath(nodes, path) && path[0] == root && path[|path| - 1] == id;
      ClosedHoldsPath(nodes, seen, path);
    }
  }

  /**
   The closure succeeds exactly when the root exists and every reachable id is known; it then lists
   every reachable local package once, whatever cycles and shared dependencies there are, and
   nothing else, in name order, packages of one name in the order of their first visit.
   */
  method LocalDependencyClosure(metadata: Metadata, rootPackage: string, paths: Paths)
    returns (r: Result<seq<Crate>, Error>)
    ensures var packages, nodes := PackagesById(metadata.packages), NodesById(metadata.nodes);
            match RootId(metadata.packages, rootPackage)
            case None => r == Failure(PackageNotInMetadata(rootPackage))
            case Some(root) =>
              if root !in nodes then r == Failure(NoResolveNode(rootPackage))
              else IsClosure(packages, nodes, paths, root, r)
    ensures r.Success? ==> forall i, j | 0 <= i < j < |r.value| :: LexLe(r.value[i].name, r.value[j].name)
  {
    var packages, nodes := PackagesById(metadata.packages), NodesById(metadata.nodes);
    var rootId := RootId(metadata.packages, rootPackage);
    if rootId.None? {
      return Failure(PackageNotInMetadata(rootPackage));
    }
    var root := rootId.value;
    if root !in nodes {
      return Failure(NoResolveNode(rootPackage));
    }
    r := Walk(packages, nodes, paths, root);
  }

  /** What the closure of `root` is: all reachable local packages, or a reachable id that is not known. */
  ghost predicate IsClosure(
      packages: map<Id, Package>, nodes: map<Id, Node>, paths: Paths, root: Id, r: Result<seq<Crate>, Error>)
  {
    match r
    case Success(crates) =>
      && (forall id | Reachable(nodes, root, id) :: id in packages && id in nodes)
      && var ids := VisitOrder(packages, nodes, {}, [root]);
      && ListsLocal(ids, packages, nodes, root)
      && IsStableSort(crates, CratesOf(packages, nodes, paths, ids))
    case Failure(e) =>
      e.UnknownId? && Reachable(nodes, root, e.id) && !(e.id in packages && e.id in nodes)
  }

  /** `crates` are those of `order`, sorted by name, equal names in the order they have there. */
  ghost predicate IsStableSort(crates: seq<Crate>, order: seq<Crate>) {
    && SortedBy(Name, crates)
    && multiset(crates) == multiset(order)
    && forall name :: OfKey(Name, name, crates) == OfKey(Name, name, order)
  }

  lemma SortIsStable(order: seq<Crate>)
    ensures IsStableSort(SortBy(Name, order), order)
  {
    SortBySorts(Name, order);
    forall name ensures OfKey(Name, name, SortBy(Name, order)) == OfKey(Name, name, order) {
      SortByIsStable(Name, order, name);
    }
  }

  lemma AllVisited(
      packages: map<Id, Package>, nodes: map<Id, Node>, paths: Paths, root: Id, seen: set<Id>, ids: seq<Id>)
    requires Walking(packages, nodes, root, seen, [], ids) && InOrder(packages, nodes, root, seen, [], ids)
    ensures IsClosure(packages, nodes, paths, root, Success(SortBy(Name, CratesOf(packages, nodes, paths, ids))))
  {
    WalkedEverything(packages, nodes, root, seen, ids);
    assert ids + [] == ids;
    SortIsStable(CratesOf(packages, nodes, paths, ids));
  }

  /** An id that is visited before is dropped from the queue. */
  lemma SkipKeeps(
      packages: map<Id, Package>, nodes: map<Id, Node>, root: Id, seen: set<Id>, queue: seq<Id>, ids: seq<Id>)
    requires Walking(packages, nodes, root, seen, queue, ids) && InOrder(packages, nodes, root, seen, queue, ids)
    requires queue != [] && queue[0] in seen
    ensures Walking(packages, nodes, root, seen, queue[1..], ids)
    ensures InOrder(packages, nodes, root, seen, queue[1..], ids)
  {
    assert queue == [queue[0]] + queue[1..];
  }

  method Walk(packages: map<Id, Package>, nodes: map<Id, Node>, paths: Paths, root: Id)
    returns (r: Result<seq<Crate>, Error>)
    ensures IsClosure(packages, nodes, paths, root, r)
  {
    ghost var ids: seq<Id> := [];
    var seen: set<Id> := {};
    var order: seq<Crate> := [];
    var queue := [root];
    ReachableRoot(nodes, root);
    while queue != []
      invariant Walking(packages, nodes, root, seen, queue, ids)
      invariant order == CratesOf(packages, nodes, paths, ids)
      invariant InOrder(packages, nodes, root, seen, queue, ids)
      decreases packages.Keys * nodes.Keys - seen, |queue|
    {
      var id := queue[0];
      if id in seen {
        SkipKeeps(packages, nodes, root, seen, queue, ids);
        queue := queue[1..];
        continue;
      }
      if id !in packages || id !in nodes {
        return Failure(UnknownId(id));
      }
      VisitKeepsWalking(packages, nodes, root, seen, queue, ids);
      VisitKeepsOrder(packages, nodes, root, seen, queue, ids);
      queue := queue[1..];
      seen := seen + {id};
      if packages[id].source.None? {
        OneMoreCrate(packages, nodes, paths, ids, id);
        order := order + [CrateOf(packages, nodes, paths, id)];
        ids := ids + [id];
      }
      queue := queue + nodes[id].deps;
    }
    AllVisited(packages, nodes, paths, root, seen, ids);
    r := Success(SortBy(Name, order));
  }
}
