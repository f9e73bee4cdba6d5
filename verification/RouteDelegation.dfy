/** Delegated HTTPRoutes (projects/gateway2/query/httproute.go, backendmap.go): a depth-first resolution with one
    visited set shared by the whole traversal. */
module RouteDelegation {
  import opened Common

  datatype BackendRef = BackendRef(group: Option<string>, kind: Option<string>, name: string, namespace: Option<string>)

  /** A consistent snapshot of the cluster as the traversal sees it: the rules of each HTTPRoute, and the routes that a
      reference from a namespace resolves to. */
  datatype Cluster = Cluster(
    rules: NamespacedName -> seq<seq<BackendRef>>,
    fetch: (string, BackendRef) -> Result<seq<NamespacedName>, RefError>)

  datatype RefError = NotFound | UnresolvedReference | CyclicReference

  predicate RefIsHTTPRoute(ref: BackendRef) {
    ref.kind == Some("HTTPRoute") && ref.group == Some("gateway.networking.k8s.io")
  }

  type RefKey = string

  function BackendToRefKey(ref: BackendRef): RefKey {
    OrEmpty(ref.group) + "~" + OrEmpty(ref.kind) + "~" + ref.name + "~" + OrEmpty(ref.namespace)
  }

  // ---- reference occurrences ----

  /** One child route fetched for one backendRef of one rule: an edge of the delegation graph, with multiplicity. */
  datatype Occurrence = Occurrence(parent: NamespacedName, rule: nat, ref: nat, child: nat)

  /** The routes fetched for a reference; none if it is not an HTTPRoute reference or resolves to nothing. */
  function Fetched(cluster: Cluster, namespace: string, ref: BackendRef): seq<NamespacedName> {
    if !RefIsHTTPRoute(ref) then []
    else match cluster.fetch(namespace, ref) case Err(_) => [] case Ok(cs) => cs
  }

  predicate IsOccurrence(cluster: Cluster, o: Occurrence) {
    var rules := cluster.rules(o.parent);
    && o.rule < |rules| && o.ref < |rules[o.rule]|
    && o.child < |Fetched(cluster, o.parent.namespace, rules[o.rule][o.ref])|
  }

  function ChildOf(cluster: Cluster, o: Occurrence): NamespacedName {
    if IsOccurrence(cluster, o)
    then Fetched(cluster, o.parent.namespace, cluster.rules(o.parent)[o.rule][o.ref])[o.child]
    else o.parent
  }

  /** A path of reference occurrences from `root` to `id`. */
  ghost predicate IsPath(cluster: Cluster, root: NamespacedName, path: seq<Occurrence>, id: NamespacedName) {
    if path == [] then id == root
    else
      var last := path[|path| - 1];
      && IsOccurrence(cluster, last) && ChildOf(cluster, last) == id
      && IsPath(cluster, root, path[..|path| - 1], last.parent)
  }

  ghost predicate Reachable(cluster: Cluster, root: NamespacedName, id: NamespacedName) {
    exists path :: IsPath(cluster, root, path, id)
  }

  lemma ReachableStep(cluster: Cluster, root: NamespacedName, o: Occurrence)
    requires Reachable(cluster, root, o.parent) && IsOccurrence(cluster, o)
    ensures Reachable(cluster, root, ChildOf(cluster, o))
  {
    var path :| IsPath(cluster, root, path, o.parent);
    assert (path + [o])[..|path|] == path;
    assert IsPath(cluster, root, path + [o], ChildOf(cluster, o));
  }

  ghost predicate Closed(cluster: Cluster, ids: set<NamespacedName>) {
    forall o: Occurrence :: o.parent in ids && IsOccurrence(cluster, o) ==> ChildOf(cluster, o) in ids
  }

  lemma {:induction false} ClosedContainsReachable(cluster: Cluster, root: NamespacedName, ids: set<NamespacedName>, path: seq<Occurrence>, id: NamespacedName)
    requires Closed(cluster, ids) && root in ids && IsPath(cluster, root, path, id)
    ensures id in ids
  {
    if path != [] {
      var last := path[|path| - 1];
      ClosedContainsReachable(cluster, root, ids, path[..|path| - 1], last.parent);
    }
  }

  // ---- what a traversal records ----

  /** The Children map of an HTTPRouteInfo. */
  datatype BackendMap = BackendMap(items: map<RefKey, seq<RouteInfo>>, errors: map<RefKey, RefError>) {
    function Add(ref: BackendRef, value: seq<RouteInfo>): BackendMap {
      this.(items := items[BackendToRefKey(ref) := value])
    }

    function AddError(ref: BackendRef, err: RefError): BackendMap {
      this.(errors := errors[BackendToRefKey(ref) := err])
    }

    /** A recorded error wins over recorded children. */
    function Lookup(ref: BackendRef): Result<seq<RouteInfo>, RefError> {
      var key := BackendToRefKey(ref);
      if key in errors then Err(errors[key])
      else if key in items then Ok(items[key])
      else Err(UnresolvedReference)
    }
  }

  datatype RouteInfo = RouteInfo(route: NamespacedName, parent: NamespacedName, children: BackendMap)

  /** Each occurrence handled so far: the node constructed for it, or None for a recorded cyclic reference. */
  type Log = map<Occurrence, Option<RouteInfo>>

  /** The state of the map and of `refChildren` while a route is being processed. */
  datatype Acc = Acc(children: BackendMap, refChildren: seq<RouteInfo>)

  function Outcome(log: Log, o: Occurrence): Option<RouteInfo> {
    if o in log then log[o] else None
  }

  function AddOutcome(acc: Acc, ref: BackendRef, outcome: Option<RouteInfo>): Acc {
    match outcome
    case None => acc.(children := acc.children.AddError(ref, CyclicReference))
    case Some(info) => acc.(refChildren := acc.refChildren + [info])
  }

  function AfterChildren(acc: Acc, log: Log, id: NamespacedName, ref: BackendRef, r: nat, b: nat, k: nat): Acc {
    if k == 0 then acc
    else
      AddOutcome(AfterChildren(acc, log, id, ref, r, b, k - 1), ref, Outcome(log, Occurrence(id, r, b, k - 1)))
  }

  function AfterRef(acc: Acc, cluster: Cluster, log: Log, id: NamespacedName, ref: BackendRef, r: nat, b: nat): Acc {
    if !RefIsHTTPRoute(ref) then acc
    else
      match cluster.fetch(id.namespace, ref)
      case Err(e) => acc.(children := acc.children.AddError(ref, e))
      case Ok(cs) =>
        var after := AfterChildren(acc, log, id, ref, r, b, |cs|);
        after.(children := after.children.Add(ref, after.refChildren))
  }

  function AfterRefs(acc: Acc, cluster: Cluster, log: Log, id: NamespacedName, refs: seq<BackendRef>, r: nat, b: nat): Acc
    requires b <= |refs|
  {
    if b == 0 then acc
    else AfterRef(AfterRefs(acc, cluster, log, id, refs, r, b - 1), cluster, log, id, refs[b - 1], r, b - 1)
  }

  /** `refChildren` is declared per rule and accumulates over its references. */
  function AfterRules(cluster: Cluster, log: Log, id: NamespacedName, rules: seq<seq<BackendRef>>, r: nat): Acc
    requires r <= |rules|
  {
    if r == 0 then Acc(BackendMap(map[], map[]), [])
    else
      var before := AfterRules(cluster, log, id, rules, r - 1);
      AfterRefs(before.(refChildren := []), cluster, log, id, rules[r - 1], r - 1, |rules[r - 1]|)
  }

  /** The Children map of `id`, given the outcome of each of its occurrences. */
  function NodeMap(cluster: Cluster, log: Log, id: NamespacedName): BackendMap {
    var rules := cluster.rules(id);
    AfterRules(cluster, log, id, rules, |rules|).children
  }

  // ---- positions inside a route ----

  datatype Position = Position(rule: nat, ref: nat, child: nat)

  predicate Before(o: Occurrence, p: Position) {
    o.rule < p.rule || (o.rule == p.rule && (o.ref < p.ref || (o.ref == p.ref && o.child < p.child)))
  }

  function End(cluster: Cluster, id: NamespacedName): Position {
    Position(|cluster.rules(id)|, 0, 0)
  }

  ghost predicate Extends(log: Log, log': Log) {
    forall o <- log :: o in log' && log'[o] == log[o]
  }

  /** The occurrences of `id` before `p` are logged. */
  ghost predicate LoggedUpTo(cluster: Cluster, log: Log, id: NamespacedName, p: Position) {
    forall o: Occurrence :: o.parent == id && IsOccurrence(cluster, o) && Before(o, p) ==> o in log
  }

  lemma {:induction false} StableChildren(acc: Acc, log: Log, log': Log, id: NamespacedName, ref: BackendRef, r: nat, b: nat, k: nat)
    requires Extends(log, log') && forall j: nat :: j < k ==> Occurrence(id, r, b, j) in log
    ensures AfterChildren(acc, log, id, ref, r, b, k) == AfterChildren(acc, log', id, ref, r, b, k)
  {
    if k > 0 {
      StableChildren(acc, log, log', id, ref, r, b, k - 1);
      assert Occurrence(id, r, b, k - 1) in log;
    }
  }

  ghost predicate ChildrenLogged(log: Log, id: NamespacedName, r: nat, b: nat, k: nat) {
    forall j: nat :: j < k ==> Occurrence(id, r, b, j) in log
  }

  lemma NextChild(acc: Acc, log: Log, log': Log, id: NamespacedName, ref: BackendRef, r: nat, b: nat, k: nat)
    requires Extends(log, log') && Occurrence(id, r, b, k) in log'
    requires ChildrenLogged(log, id, r, b, k)
    ensures ChildrenLogged(log', id, r, b, k + 1)
    ensures AfterChildren(acc, log', id, ref, r, b, k + 1)
         == AddOutcome(AfterChildren(acc, log, id, ref, r, b, k), ref, log'[Occurrence(id, r, b, k)])
  {
    StableChildren(acc, log, log', id, ref, r, b, k);
  }

  lemma NoChildren(acc: Acc, log: Log, id: NamespacedName, ref: BackendRef, r: nat, b: nat)
    ensures AfterChildren(acc, log, id, ref, r, b, 0) == acc
    ensures ChildrenLogged(log, id, r, b, 0) && Extends(log, log)
  {
  }

  lemma ExtendsTransitive(a: Log, b: Log, c: Log)
    requires Extends(a, b) && Extends(b, c)
    ensures Extends(a, c)
  {
  }

  lemma StableRef(acc: Acc, cluster: Cluster, log: Log, log': Log, id: NamespacedName, r: nat, b: nat)
    requires r < |cluster.rules(id)| && b < |cluster.rules(id)[r]|
    requires Extends(log, log') && LoggedUpTo(cluster, log, id, Position(r, b + 1, 0))
    ensures var ref := cluster.rules(id)[r][b];
      AfterRef(acc, cluster, log, id, ref, r, b) == AfterRef(acc, cluster, log', id, ref, r, b)
  {
    var ref := cluster.rules(id)[r][b];
    if RefIsHTTPRoute(ref) && cluster.fetch(id.namespace, ref).Ok? {
      var cs := cluster.fetch(id.namespace, ref).value;
      forall j: nat | j < |cs| ensures Occurrence(id, r, b, j) in log {
        assert IsOccurrence(cluster, Occurrence(id, r, b, j));
      }
      StableChildren(acc, log, log', id, ref, r, b, |cs|);
    }
  }

  lemma {:induction false} StableRefs(acc: Acc, cluster: Cluster, log: Log, log': Log, id: NamespacedName, r: nat, b: nat)
    requires r < |cluster.rules(id)| && b <= |cluster.rules(id)[r]|
    requires Extends(log, log') && LoggedUpTo(cluster, log, id, Position(r, b, 0))
    ensures var refs := cluster.rules(id)[r];
      AfterRefs(acc, cluster, log, id, refs, r, b) == AfterRefs(acc, cluster, log', id, refs, r, b)
  {
    if b > 0 {
      StableRefs(acc, cluster, log, log', id, r, b - 1);
      var refs := cluster.rules(id)[r];
      StableRef(AfterRefs(acc, cluster, log, id, refs, r, b - 1), cluster, log, log', id, r, b - 1);
    }
  }

  lemma {:induction false} StableRules(cluster: Cluster, log: Log, log': Log, id: NamespacedName, r: nat)
    requires r <= |cluster.rules(id)|
    requires Extends(log, log') && LoggedUpTo(cluster, log, id, Position(r, 0, 0))
    ensures var rules := cluster.rules(id);
      AfterRules(cluster, log, id, rules, r) == AfterRules(cluster, log', id, rules, r)
  {
    if r > 0 {
      var rules := cluster.rules(id);
      StableRules(cluster, log, log', id, r - 1);
      StableRefs(AfterRules(cluster, log, id, rules, r - 1).(refChildren := []), cluster, log, log', id, r - 1, |rules[r - 1]|);
    }
  }

  // ---- the invariant of the traversal ----

  /** The delegation graph, as far as the bookkeeping below needs it. */
  datatype Graph = Graph(edge: Occurrence -> bool, target: Occurrence -> NamespacedName)

  function GraphOf(cluster: Cluster): Graph {
    Graph(o => IsOccurrence(cluster, o), o => ChildOf(cluster, o))
  }

  /** The shared visited set, the outcome of every occurrence handled, the occurrence each node was constructed for,
      and the position reached in each route that is still open. */
  datatype Trace = Trace(visited: set<NamespacedName>, log: Log, built: map<NamespacedName, Occurrence>, open: map<NamespacedName, Position>)

  ghost predicate Logged(g: Graph, t: Trace) {
    forall o: Occurrence :: o in t.log <==>
      o.parent in t.visited && g.edge(o) && (o.parent in t.open ==> Before(o, t.open[o.parent]))
  }

  ghost predicate ChildrenVisited(g: Graph, t: Trace) {
    forall o <- t.log :: g.target(o) in t.visited
  }

  /** A node is constructed for one occurrence only. */
  ghost predicate TreeEdges(g: Graph, t: Trace) {
    && (forall o <- t.log :: t.log[o].Some? ==> g.target(o) in t.built && t.built[g.target(o)] == o)
    && (forall c <- t.built :: t.built[c] in t.log && t.log[t.built[c]].Some? && g.target(t.built[c]) == c)
  }

  /** The visited routes are the open ones and those a node was constructed for. */
  ghost predicate Partition(t: Trace) {
    t.open.Keys <= t.visited && t.built.Keys == t.visited - t.open.Keys
  }

  ghost predicate Core(g: Graph, t: Trace) {
    Partition(t) && Logged(g, t) && ChildrenVisited(g, t) && TreeEdges(g, t)
  }

  function EnterTrace(t: Trace, id: NamespacedName): Trace {
    t.(visited := t.visited + {id}, open := t.open[id := Position(0, 0, 0)])
  }

  lemma EnterKeepsCore(g: Graph, t: Trace, id: NamespacedName)
    requires Core(g, t) && id !in t.visited
    ensures Core(g, EnterTrace(t, id))
  {
    var t' := EnterTrace(t, id);
    assert Partition(t');
    assert Logged(g, t');
  }

  function MoveTrace(t: Trace, id: NamespacedName, p: Position): Trace {
    t.(open := t.open[id := p])
  }

  /** Moving past the last child of a reference, a reference without children, or the last reference of a rule. */
  lemma MoveKeepsCore(g: Graph, t: Trace, id: NamespacedName, p: Position)
    requires Core(g, t) && id in t.open
    requires forall o: Occurrence :: o.parent == id && g.edge(o) ==> (Before(o, t.open[id]) <==> Before(o, p))
    ensures Core(g, MoveTrace(t, id, p))
  {
    var t' := MoveTrace(t, id, p);
    assert t'.open.Keys == t.open.Keys;
    assert Logged(g, t');
  }

  ghost predicate AtOccurrence(g: Graph, t: Trace, o: Occurrence) {
    g.edge(o) && o.parent in t.open && t.open[o.parent] == Position(o.rule, o.ref, o.child)
  }

  function PositionAfter(o: Occurrence): Position {
    Position(o.rule, o.ref, o.child + 1)
  }

  lemma BeforeNext(o: Occurrence, q: Occurrence)
    requires q.parent == o.parent
    ensures Before(q, PositionAfter(o)) <==> Before(q, Position(o.rule, o.ref, o.child)) || q == o
  {
  }

  function CyclicTrace(t: Trace, o: Occurrence): Trace {
    t.(log := t.log[o := None], open := t.open[o.parent := PositionAfter(o)])
  }

  lemma CyclicKeepsCore(g: Graph, t: Trace, o: Occurrence)
    requires Core(g, t) && AtOccurrence(g, t, o) && g.target(o) in t.visited
    ensures o !in t.log && Core(g, CyclicTrace(t, o))
  {
    var t' := CyclicTrace(t, o);
    assert t'.open.Keys == t.open.Keys;
    forall q: Occurrence | q.parent == o.parent ensures Before(q, PositionAfter(o)) <==> Before(q, t.open[o.parent]) || q == o {
      BeforeNext(o, q);
    }
    assert Logged(g, t');
  }

  function TreeTrace(g: Graph, t: Trace, o: Occurrence, info: RouteInfo): Trace {
    var id := g.target(o);
    Trace(t.visited, t.log[o := Some(info)], t.built[id := o], t.open[o.parent := PositionAfter(o)] - {id})
  }

  /** Closing a child: it leaves the open routes and becomes the node constructed for this occurrence. */
  lemma TreeKeepsCore(g: Graph, t: Trace, o: Occurrence, info: RouteInfo)
    requires Core(g, t) && AtOccurrence(g, t, o)
    requires g.target(o) != o.parent && g.target(o) in t.open
    requires forall q: Occurrence :: q.parent == g.target(o) && g.edge(q) ==> Before(q, t.open[g.target(o)])
    ensures o !in t.log && Core(g, TreeTrace(g, t, o, info))
  {
    var t', id := TreeTrace(g, t, o, info), g.target(o);
    assert t'.open.Keys == t.open.Keys - {id} && t'.built.Keys == t.built.Keys + {id};
    forall q: Occurrence | q.parent == o.parent ensures Before(q, PositionAfter(o)) <==> Before(q, t.open[o.parent]) || q == o {
      BeforeNext(o, q);
    }
    assert Logged(g, t');
  }

  // ---- the maps recorded on constructed nodes ----

  /** A constructed node carries its route, its parent and its complete Children map. */
  ghost predicate Infos(cluster: Cluster, log: Log) {
    forall o <- log :: log[o].Some? ==>
      log[o].value == RouteInfo(ChildOf(cluster, o), o.parent, NodeMap(cluster, log, ChildOf(cluster, o)))
  }

  ghost predicate Complete(cluster: Cluster, log: Log, id: NamespacedName) {
    LoggedUpTo(cluster, log, id, End(cluster, id))
  }

  /** The complete map of a closed route does not change when the log grows. */
  lemma StableNodeMap(cluster: Cluster, log: Log, log': Log, id: NamespacedName)
    requires Complete(cluster, log, id) && Extends(log, log')
    ensures NodeMap(cluster, log', id) == NodeMap(cluster, log, id)
  {
    StableRules(cluster, log, log', id, |cluster.rules(id)|);
  }

  lemma ClosedIsComplete(cluster: Cluster, t: Trace, id: NamespacedName)
    requires Logged(GraphOf(cluster), t) && id in t.visited
    requires id in t.open ==> t.open[id] == End(cluster, id)
    ensures Complete(cluster, t.log, id)
  {
    forall o: Occurrence | o.parent == id && IsOccurrence(cluster, o) ensures o in t.log {
      assert GraphOf(cluster).edge(o) && Before(o, End(cluster, id));
    }
  }

  lemma ConstructedIsComplete(cluster: Cluster, t: Trace, o: Occurrence)
    requires Core(GraphOf(cluster), t) && o in t.log && t.log[o].Some?
    ensures Complete(cluster, t.log, ChildOf(cluster, o))
  {
    assert GraphOf(cluster).target(o) in t.built;
    ClosedIsComplete(cluster, t, ChildOf(cluster, o));
  }

  ghost predicate AllComplete(cluster: Cluster, log: Log) {
    forall o <- log :: log[o].Some? ==> Complete(cluster, log, ChildOf(cluster, o))
  }

  /** The maps recorded so far stay right when one more occurrence is logged. */
  lemma InfosGrow(cluster: Cluster, log: Log, o: Occurrence, outcome: Option<RouteInfo>)
    requires AllComplete(cluster, log) && Infos(cluster, log) && o !in log
    requires outcome.Some? ==>
      && Complete(cluster, log, ChildOf(cluster, o))
      && outcome.value == RouteInfo(ChildOf(cluster, o), o.parent, NodeMap(cluster, log, ChildOf(cluster, o)))
    ensures Infos(cluster, log[o := outcome])
  {
    var log' := log[o := outcome];
    forall q | q in log' && log'[q].Some?
      ensures log'[q].value == RouteInfo(ChildOf(cluster, q), q.parent, NodeMap(cluster, log', ChildOf(cluster, q)))
    {
      StableNodeMap(cluster, log, log', ChildOf(cluster, q));
    }
  }

  // ---- the whole invariant ----

  /** A property of routes that delegation passes on, such as being reachable from a given root. */
  ghost predicate Inherited(cluster: Cluster, reach: NamespacedName -> bool) {
    forall o: Occurrence :: reach(o.parent) && IsOccurrence(cluster, o) ==> reach(ChildOf(cluster, o))
  }

  ghost predicate Inv(cluster: Cluster, reach: NamespacedName -> bool, t: Trace) {
    (forall n <- t.visited :: reach(n)) && Core(GraphOf(cluster), t) && Infos(cluster, t.log)
  }

  lemma EnterKeepsInv(cluster: Cluster, reach: NamespacedName -> bool, t: Trace, id: NamespacedName)
    requires Inv(cluster, reach, t) && id !in t.visited && reach(id)
    ensures Inv(cluster, reach, EnterTrace(t, id))
  {
    EnterKeepsCore(GraphOf(cluster), t, id);
  }

  /** Positions that separate the same occurrences of `id`. */
  ghost predicate SamePosition(cluster: Cluster, id: NamespacedName, p: Position, q: Position) {
    forall o: Occurrence :: o.parent == id && IsOccurrence(cluster, o) ==> (Before(o, p) <==> Before(o, q))
  }

  lemma MoveKeepsInv(cluster: Cluster, reach: NamespacedName -> bool, t: Trace, id: NamespacedName, p: Position)
    requires Inv(cluster, reach, t) && id in t.open && SamePosition(cluster, id, t.open[id], p)
    ensures Inv(cluster, reach, MoveTrace(t, id, p))
  {
    MoveKeepsCore(GraphOf(cluster), t, id, p);
  }

  lemma CyclicKeepsInv(cluster: Cluster, reach: NamespacedName -> bool, t: Trace, o: Occurrence)
    requires Inv(cluster, reach, t) && AtOccurrence(GraphOf(cluster), t, o) && ChildOf(cluster, o) in t.visited
    ensures o !in t.log && Inv(cluster, reach, CyclicTrace(t, o))
  {
    CyclicKeepsCore(GraphOf(cluster), t, o);
    forall q | q in t.log && t.log[q].Some? ensures Complete(cluster, t.log, ChildOf(cluster, q)) {
      ConstructedIsComplete(cluster, t, q);
    }
    InfosGrow(cluster, t.log, o, None);
  }

  lemma TreeKeepsInv(cluster: Cluster, reach: NamespacedName -> bool, t: Trace, o: Occurrence, info: RouteInfo)
    requires Inv(cluster, reach, t) && AtOccurrence(GraphOf(cluster), t, o)
    requires ChildOf(cluster, o) != o.parent && ChildOf(cluster, o) in t.open
    requires t.open[ChildOf(cluster, o)] == End(cluster, ChildOf(cluster, o))
    requires info == RouteInfo(ChildOf(cluster, o), o.parent, NodeMap(cluster, t.log, ChildOf(cluster, o)))
    ensures o !in t.log && Inv(cluster, reach, TreeTrace(GraphOf(cluster), t, o, info))
  {
    var id := ChildOf(cluster, o);
    forall q: Occurrence | q.parent == id && IsOccurrence(cluster, q) ensures Before(q, t.open[id]) {
    }
    TreeKeepsCore(GraphOf(cluster), t, o, info);
    forall q | q in t.log && t.log[q].Some? ensures Complete(cluster, t.log, ChildOf(cluster, q)) {
      ConstructedIsComplete(cluster, t, q);
    }
    ClosedIsComplete(cluster, t, id);
    InfosGrow(cluster, t.log, o, Some(info));
  }

  // ---- the traversal ----

  class Resolver {
    const cluster: Cluster
    ghost const ids: set<NamespacedName>
    var visited: set<NamespacedName>
    ghost var trace: Trace

    constructor (cluster: Cluster, ghost ids: set<NamespacedName>)
      ensures this.cluster == cluster && this.ids == ids && visited == {} && trace == Trace({}, map[], map[], map[])
    {
      this.cluster := cluster;
      this.ids := ids;
      visited := {};
      trace := Trace({}, map[], map[], map[]);
    }

    /** Delegation stays within `ids` and passes `reach` on. */
    ghost predicate Setting(reach: NamespacedName -> bool) {
      Inherited(cluster, reach) && Inherited(cluster, id => id in ids)
    }

    ghost predicate Valid(reach: NamespacedName -> bool)
      reads this
    {
      trace.visited == visited && visited <= ids && Inv(cluster, reach, trace)
    }

    /** What every part of the traversal of `id` leaves behind: the log has only grown, and the routes that were open
        are where they were, except `id`, which has moved to `p`. */
    ghost predicate Advanced(before: Trace, id: NamespacedName, p: Position)
      reads this
    {
      before.visited <= visited && Extends(before.log, trace.log) && trace.open == before.open[id := p]
    }

    /** One child route: a cyclic reference if it was visited before, otherwise a new node. */
    method ResolveChild(ghost reach: NamespacedName -> bool, parent: NamespacedName, child: NamespacedName, ghost o: Occurrence)
      returns (outcome: Option<RouteInfo>)
      requires Setting(reach) && Valid(reach) && o.parent == parent && ChildOf(cluster, o) == child
      requires AtOccurrence(GraphOf(cluster), trace, o)
      modifies this
      ensures Valid(reach) && Advanced(old(trace), parent, PositionAfter(o))
      ensures o in trace.log && trace.log[o] == outcome
      decreases ids - visited, 1
    {
      hide Inv;
      hide Inherited;
      hide NodeMap;
      hide IsOccurrence;
      hide ChildOf;
      if child in visited {
        CyclicKeepsInv(cluster, reach, trace, o);
        trace := CyclicTrace(trace, o);
        return None;
      }
      ChildMayBeVisited(cluster, ids, reach, trace, o);
      var grandchildren := GetDelegatedChildren(reach, child);
      var info := RouteInfo(child, parent, grandchildren);
      TreeKeepsInv(cluster, reach, trace, o, info);
      trace := TreeTrace(GraphOf(cluster), trace, o, info);
      assert trace.open == old(trace).open[parent := PositionAfter(o)];
      return Some(info);
    }

    /** The loop over the child routes of one reference. */
    method ResolveChildren(ghost reach: NamespacedName -> bool, parent: NamespacedName, ref: BackendRef, ghost r: nat, ghost b: nat,
                           referenced: seq<NamespacedName>, acc: Acc)
      returns (children: BackendMap, refChildren: seq<RouteInfo>)
      requires Setting(reach) && Valid(reach) && parent in trace.open && trace.open[parent] == Position(r, b, 0)
      requires r < |cluster.rules(parent)| && b < |cluster.rules(parent)[r]| && cluster.rules(parent)[r][b] == ref
      requires RefIsHTTPRoute(ref) && cluster.fetch(parent.namespace, ref) == Ok(referenced)
      modifies this
      ensures Valid(reach) && Advanced(old(trace), parent, Position(r, b, |referenced|))
      ensures Acc(children, refChildren) == AfterChildren(acc, trace.log, parent, ref, r, b, |referenced|)
      decreases ids - visited, 2
    {
      hide Inv, Inherited, Setting, IsOccurrence, ChildOf, GraphOf, AfterChildren, Extends, ChildrenLogged;
      children, refChildren := acc.children, acc.refChildren;
      NoChildren(acc, trace.log, parent, ref, r, b);
      for k := 0 to |referenced|
        invariant Valid(reach) && Advanced(old(trace), parent, Position(r, b, k))
        invariant Acc(children, refChildren) == AfterChildren(acc, trace.log, parent, ref, r, b, k)
        invariant ChildrenLogged(trace.log, parent, r, b, k)
      {
        ghost var o, before := Occurrence(parent, r, b, k), trace.log;
        OccurrenceAt(cluster, o, ref, referenced);
        var outcome := ResolveChild(reach, parent, referenced[k], o);
        assert trace.open == old(trace).open[parent := Position(r, b, k + 1)];
        ExtendsTransitive(old(trace).log, before, trace.log);
        NextChild(acc, before, trace.log, parent, ref, r, b, k);
        assert Acc(children, refChildren) == AfterChildren(acc, before, parent, ref, r, b, k);
        if outcome.None? {
          children := children.AddError(ref, CyclicReference);
        } else {
          refChildren := refChildren + [outcome.value];
        }
      }
    }

    /** One reference of a rule. */
    method ResolveRef(ghost reach: NamespacedName -> bool, parent: NamespacedName, ref: BackendRef, ghost r: nat, ghost b: nat, acc: Acc)
      returns (children: BackendMap, refChildren: seq<RouteInfo>)
      requires Setting(reach) && Valid(reach) && parent in trace.open && trace.open[parent] == Position(r, b, 0)
      requires r < |cluster.rules(parent)| && b < |cluster.rules(parent)[r]| && cluster.rules(parent)[r][b] == ref
      modifies this
      ensures Valid(reach) && Advanced(old(trace), parent, Position(r, b + 1, 0))
      ensures Acc(children, refChildren) == AfterRef(acc, cluster, trace.log, parent, ref, r, b)
      decreases ids - visited, 3
    {
      hide Inv, Inherited, AfterChildren;
      children, refChildren := acc.children, acc.refChildren;
      if RefIsHTTPRoute(ref) {
        var referenced := cluster.fetch(parent.namespace, ref);
        if referenced.Err? {
          children := children.AddError(ref, referenced.error);
        } else {
          children, refChildren := ResolveChildren(reach, parent, ref, r, b, referenced.value, acc);
          children := children.Add(ref, refChildren);
        }
      }
      MoveKeepsInv(cluster, reach, trace, parent, Position(r, b + 1, 0));
      trace := MoveTrace(trace, parent, Position(r, b + 1, 0));
    }

    /** The loop over the references of one rule; `refChildren` starts empty for each rule. */
    method ResolveRule(ghost reach: NamespacedName -> bool, parent: NamespacedName, r: nat, before: BackendMap)
      returns (children: BackendMap)
      requires Setting(reach) && Valid(reach) && r < |cluster.rules(parent)|
      requires parent in trace.open && trace.open[parent] == Position(r, 0, 0)
      modifies this
      ensures Valid(reach) && Advanced(old(trace), parent, Position(r + 1, 0, 0))
      ensures var refs := cluster.rules(parent)[r];
        children == AfterRefs(Acc(before, []), cluster, trace.log, parent, refs, r, |refs|).children
      decreases ids - visited, 4
    {
      hide Inv, Inherited, LoggedUpTo, AfterRef;
      var refs := cluster.rules(parent)[r];
      var refChildren: seq<RouteInfo> := [];
      children := before;
      for b := 0 to |refs|
        invariant Valid(reach) && Advanced(old(trace), parent, Position(r, b, 0))
        invariant Acc(children, refChildren) == AfterRefs(Acc(before, []), cluster, trace.log, parent, refs, r, b)
      {
        ghost var start := trace;
        children, refChildren := ResolveRef(reach, parent, refs[b], r, b, Acc(children, refChildren));
        PositionsAreLogged(cluster, reach, start, parent, Position(r, b, 0));
        StableRefs(Acc(before, []), cluster, start.log, trace.log, parent, r, b);
      }
      MoveKeepsInv(cluster, reach, trace, parent, Position(r + 1, 0, 0));
      trace := MoveTrace(trace, parent, Position(r + 1, 0, 0));
    }

    /** `getDelegatedChildren`: depth first, marking every route visited on entry. */
    method GetDelegatedChildren(ghost reach: NamespacedName -> bool, parent: NamespacedName) returns (children: BackendMap)
      requires Setting(reach) && Valid(reach) && parent in ids && parent !in visited && reach(parent)
      modifies this
      ensures Valid(reach) && Advanced(old(trace), parent, End(cluster, parent))
      ensures children == NodeMap(cluster, trace.log, parent)
      decreases ids - visited, 0
    {
      hide Inv;
      hide Inherited;
      hide LoggedUpTo;
      hide AfterRefs;
      EnterKeepsInv(cluster, reach, trace, parent);
      visited := visited + {parent};
      trace := EnterTrace(trace, parent);
      children := BackendMap(map[], map[]);
      var rules := cluster.rules(parent);
      for r := 0 to |rules|
        invariant Valid(reach) && Advanced(old(trace), parent, Position(r, 0, 0)) && parent in visited
        invariant children == AfterRules(cluster, trace.log, parent, rules, r).children
      {
        ghost var start := trace;
        children := ResolveRule(reach, parent, r, children);
        PositionsAreLogged(cluster, reach, start, parent, Position(r, 0, 0));
        StableRules(cluster, start.log, trace.log, parent, r);
      }
    }
  }

  lemma PositionsAreLogged(cluster: Cluster, reach: NamespacedName -> bool, t: Trace, id: NamespacedName, p: Position)
    requires Inv(cluster, reach, t) && id in t.open && t.open[id] == p
    ensures LoggedUpTo(cluster, t.log, id, p)
  {
    forall o: Occurrence | o.parent == id && IsOccurrence(cluster, o) && Before(o, p) ensures o in t.log {
      assert GraphOf(cluster).edge(o);
    }
  }

  lemma OccurrenceAt(cluster: Cluster, o: Occurrence, ref: BackendRef, referenced: seq<NamespacedName>)
    requires o.rule < |cluster.rules(o.parent)| && o.ref < |cluster.rules(o.parent)[o.rule]|
    requires cluster.rules(o.parent)[o.rule][o.ref] == ref && RefIsHTTPRoute(ref)
    requires cluster.fetch(o.parent.namespace, ref) == Ok(referenced) && o.child < |referenced|
    ensures IsOccurrence(cluster, o) && GraphOf(cluster).edge(o) && ChildOf(cluster, o) == referenced[o.child]
  {
  }

  /** A route found at an open position may be visited. */
  lemma ChildMayBeVisited(cluster: Cluster, ids: set<NamespacedName>, reach: NamespacedName -> bool, t: Trace, o: Occurrence)
    requires Inv(cluster, reach, t) && AtOccurrence(GraphOf(cluster), t, o) && t.visited <= ids
    requires Inherited(cluster, reach) && Inherited(cluster, id => id in ids)
    ensures t.open.Keys <= t.visited && ChildOf(cluster, o) in ids && reach(ChildOf(cluster, o))
  {
  }
}
