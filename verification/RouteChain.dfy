/** What resolving a route chain yields (projects/gateway2/query/httproute.go: GetHTTPRouteChain, fetchChildRoutes). */
module RouteChain {
  import opened Common
  import opened RouteDelegation

  datatype Route = Route(id: NamespacedName, rules: seq<seq<BackendRef>>)

  // ---- the cluster as a list of HTTPRoutes ----

  function Ids(routes: seq<Route>): set<NamespacedName> {
    set r | r in routes :: r.id
  }

  function RulesOf(routes: seq<Route>, id: NamespacedName): seq<seq<BackendRef>> {
    if routes == [] then []
    else if routes[0].id == id then routes[0].rules
    else RulesOf(routes[1..], id)
  }

  function InNamespace(routes: seq<Route>, namespace: string): seq<NamespacedName> {
    if routes == [] then []
    else if routes[0].id.namespace == namespace then [routes[0].id] + InNamespace(routes[1..], namespace)
    else InNamespace(routes[1..], namespace)
  }

  lemma {:induction false} InNamespaceIds(routes: seq<Route>, namespace: string)
    ensures forall id :: id in InNamespace(routes, namespace) <==> id in Ids(routes) && id.namespace == namespace
  {
    if routes != [] {
      InNamespaceIds(routes[1..], namespace);
      assert routes == [routes[0]] + routes[1..];
      assert Ids(routes) == {routes[0].id} + Ids(routes[1..]);
    }
  }

  function DelegatedNamespace(parentNamespace: string, ref: BackendRef): string {
    match ref.namespace case None => parentNamespace case Some(ns) => ns
  }

  /** An empty name or `*` is a wildcard over the namespace, the parent itself included. */
  function FetchChildRoutes(routes: seq<Route>, parentNamespace: string, ref: BackendRef): Result<seq<NamespacedName>, RefError> {
    var namespace := DelegatedNamespace(parentNamespace, ref);
    if ref.name == "" || ref.name == "*" then
      var found := InNamespace(routes, namespace);
      if found == [] then Err(UnresolvedReference) else Ok(found)
    else
      var id := NamespacedName(namespace, ref.name);
      if id in Ids(routes) then Ok([id]) else Err(NotFound)
  }

  /** The routes a reference names: those of its namespace, which defaults to the parent's, and of its name unless it is a
      wildcard. */
  ghost predicate Names(ref: BackendRef, parentNamespace: string, id: NamespacedName) {
    && id.namespace == (if ref.namespace.Some? then ref.namespace.value else parentNamespace)
    && (ref.name == "" || ref.name == "*" || id.name == ref.name)
  }

  /** Fetching yields exactly the routes of the cluster that the reference names, and fails exactly when there are none. */
  lemma FetchIsExact(routes: seq<Route>, parentNamespace: string, ref: BackendRef, id: NamespacedName)
    ensures var r := FetchChildRoutes(routes, parentNamespace, ref);
      && (r.Ok? ==> (id in r.value <==> id in Ids(routes) && Names(ref, parentNamespace, id)))
      && (r.Err? ==> !(id in Ids(routes) && Names(ref, parentNamespace, id)))
      && (r.Ok? ==> |r.value| > 0 && r.value[0] in Ids(routes) && Names(ref, parentNamespace, r.value[0]))
  {
    InNamespaceIds(routes, DelegatedNamespace(parentNamespace, ref));
  }

  /** A route's rules are those it is listed with. */
  lemma {:induction false} RulesAreListed(routes: seq<Route>, k: nat)
    requires k < |routes| && forall i :: 0 <= i < k ==> routes[i].id != routes[k].id
    ensures RulesOf(routes, routes[k].id) == routes[k].rules
  {
    if k > 0 {
      RulesAreListed(routes[1..], k - 1);
    }
  }

  function Snapshot(routes: seq<Route>): Cluster {
    Cluster(id => RulesOf(routes, id), (namespace, ref) => FetchChildRoutes(routes, namespace, ref))
  }

  lemma DelegationStaysInCluster(routes: seq<Route>, o: Occurrence)
    requires IsOccurrence(Snapshot(routes), o)
    ensures ChildOf(Snapshot(routes), o) in Ids(routes)
  {
    var ref := RulesOf(routes, o.parent)[o.rule][o.ref];
    var namespace := DelegatedNamespace(o.parent.namespace, ref);
    InNamespaceIds(routes, namespace);
    var fetched := Fetched(Snapshot(routes), o.parent.namespace, ref);
    assert fetched[o.child] in fetched;
  }

  // ---- the result ----

  /** The traversal from `root` covered exactly the reachable routes and their references, and constructed exactly one
      node for each reachable route other than the root, each carrying its complete Children map. */
  ghost predicate Resolution(cluster: Cluster, root: NamespacedName, t: Trace) {
    && (forall id :: id in t.visited <==> Reachable(cluster, root, id))
    && (forall o: Occurrence :: o in t.log <==> o.parent in t.visited && IsOccurrence(cluster, o))
    && t.built.Keys == t.visited - {root}
    && (forall o <- t.log :: t.log[o].Some? ==> ChildOf(cluster, o) in t.built && t.built[ChildOf(cluster, o)] == o)
    && (forall c <- t.built :: t.built[c] in t.log && t.log[t.built[c]].Some? && ChildOf(cluster, t.built[c]) == c)
    && Infos(cluster, t.log)
  }

  lemma FinalTraceIsResolution(cluster: Cluster, root: NamespacedName, t: Trace)
    requires Core(GraphOf(cluster), t) && Infos(cluster, t.log)
    requires forall id <- t.visited :: Reachable(cluster, root, id)
    requires t.open == map[root := End(cluster, root)]
    ensures Resolution(cluster, root, t)
  {
    hide Reachable;
    hide Infos;
    var g := GraphOf(cluster);
    forall o: Occurrence ensures g.edge(o) <==> IsOccurrence(cluster, o) {
    }
    forall o: Occurrence ensures g.target(o) == ChildOf(cluster, o) {
    }
    forall o: Occurrence ensures o in t.log <==> o.parent in t.visited && IsOccurrence(cluster, o) {
      assert IsOccurrence(cluster, o) && o.parent == root ==> Before(o, End(cluster, root));
    }
    forall o: Occurrence | o.parent in t.visited && IsOccurrence(cluster, o) ensures ChildOf(cluster, o) in t.visited {
      assert o in t.log;
    }
    forall id | Reachable(cluster, root, id) ensures id in t.visited {
      ReachableIsVisited(cluster, root, t.visited, id);
    }
  }

  lemma ReachableIsVisited(cluster: Cluster, root: NamespacedName, ids: set<NamespacedName>, id: NamespacedName)
    requires Closed(cluster, ids) && root in ids && Reachable(cluster, root, id)
    ensures id in ids
  {
    var path :| IsPath(cluster, root, path, id);
    ClosedContainsReachable(cluster, root, ids, path, id);
  }

  /** Terminates on every finite cluster, cyclic or not. */
  method GetHTTPRouteChain(routes: seq<Route>, root: NamespacedName, parentRef: NamespacedName) returns (info: RouteInfo, ghost t: Trace)
    requires root in Ids(routes)
    ensures Resolution(Snapshot(routes), root, t)
    ensures info == RouteInfo(root, parentRef, NodeMap(Snapshot(routes), t.log, root))
  {
    var cluster := Snapshot(routes);
    var resolver := new Resolver(cluster, Ids(routes));
    ghost var reach := id => Reachable(cluster, root, id);
    assert IsPath(cluster, root, [], root);
    forall o: Occurrence | reach(o.parent) && IsOccurrence(cluster, o) ensures reach(ChildOf(cluster, o)) {
      ReachableStep(cluster, root, o);
    }
    forall o: Occurrence | IsOccurrence(cluster, o) ensures ChildOf(cluster, o) in Ids(routes) {
      DelegationStaysInCluster(routes, o);
    }
    var children := resolver.GetDelegatedChildren(reach, root);
    t := resolver.trace;
    assert t.open == map[root := End(cluster, root)];
    forall id | id in t.visited ensures Reachable(cluster, root, id) {
      assert reach(id);
    }
    FinalTraceIsResolution(cluster, root, t);
    info := RouteInfo(root, parentRef, children);
  }

  // ---- cyclic references ----

  ghost predicate NoCyclicReference(t: Trace) {
    forall o <- t.log :: t.log[o].Some?
  }

  /** A reference occurrence in a reachable route. */
  ghost predicate ReachableEdge(cluster: Cluster, root: NamespacedName, o: Occurrence) {
    Reachable(cluster, root, o.parent) && IsOccurrence(cluster, o)
  }

  /** Every reachable route other than the root is referenced once, and the root never. */
  ghost predicate IsDelegationTree(cluster: Cluster, root: NamespacedName) {
    && (forall o: Occurrence, q: Occurrence :: ReachableEdge(cluster, root, o) && ReachableEdge(cluster, root, q) ==>
          (ChildOf(cluster, o) == ChildOf(cluster, q) ==> o == q))
    && (forall o: Occurrence :: ReachableEdge(cluster, root, o) ==> ChildOf(cluster, o) != root)
  }

  /** A cyclic error is recorded exactly when the reachable part is not a tree: a diamond is enough. */
  lemma NoCyclicErrorIffTree(cluster: Cluster, root: NamespacedName, t: Trace)
    requires Resolution(cluster, root, t)
    ensures NoCyclicReference(t) <==> IsDelegationTree(cluster, root)
  {
    hide Reachable;
    hide Infos;
    hide IsOccurrence;
    hide ChildOf;
    if NoCyclicReference(t) {
      forall o: Occurrence, q: Occurrence
        | ReachableEdge(cluster, root, o) && ReachableEdge(cluster, root, q) && ChildOf(cluster, o) == ChildOf(cluster, q)
        ensures o == q
      {
        assert o in t.log && q in t.log;
        assert t.built[ChildOf(cluster, o)] == o && t.built[ChildOf(cluster, q)] == q;
      }
      forall o: Occurrence | ReachableEdge(cluster, root, o) ensures ChildOf(cluster, o) != root {
        assert o in t.log;
      }
    }
    if IsDelegationTree(cluster, root) {
      forall o | o in t.log ensures t.log[o].Some? {
        var child := ChildOf(cluster, o);
        VisitedChild(cluster, root, o);
        assert ReachableEdge(cluster, root, o);
        assert child in t.built;
        var q := t.built[child];
        assert q in t.log && ReachableEdge(cluster, root, q);
      }
    }
  }

  lemma VisitedChild(cluster: Cluster, root: NamespacedName, o: Occurrence)
    requires Reachable(cluster, root, o.parent) && IsOccurrence(cluster, o)
    ensures Reachable(cluster, root, ChildOf(cluster, o))
  {
    ReachableStep(cluster, root, o);
  }

  // ---- what the recorded maps say ----

  /** The reference does not resolve, or one of its routes was visited before. */
  ghost predicate RefFails(cluster: Cluster, log: Log, id: NamespacedName, ref: BackendRef, r: nat, b: nat) {
    RefIsHTTPRoute(ref) &&
    match cluster.fetch(id.namespace, ref)
    case Err(_) => true
    case Ok(cs) => exists k: nat :: k < |cs| && Outcome(log, Occurrence(id, r, b, k)).None?
  }

  lemma {:induction false} ChildrenErrors(acc: Acc, log: Log, id: NamespacedName, ref: BackendRef, r: nat, b: nat, k: nat, key: RefKey)
    ensures key in AfterChildren(acc, log, id, ref, r, b, k).children.errors
       <==> key in acc.children.errors
            || (key == BackendToRefKey(ref) && exists j: nat :: j < k && Outcome(log, Occurrence(id, r, b, j)).None?)
  {
    if k > 0 {
      ChildrenErrors(acc, log, id, ref, r, b, k - 1, key);
      if Outcome(log, Occurrence(id, r, b, k - 1)).None? {
        assert k - 1 < k;
      }
    }
  }

  lemma RefErrors(acc: Acc, cluster: Cluster, log: Log, id: NamespacedName, ref: BackendRef, r: nat, b: nat, key: RefKey)
    ensures key in AfterRef(acc, cluster, log, id, ref, r, b).children.errors
       <==> key in acc.children.errors || (key == BackendToRefKey(ref) && RefFails(cluster, log, id, ref, r, b))
  {
    if RefIsHTTPRoute(ref) && cluster.fetch(id.namespace, ref).Ok? {
      ChildrenErrors(acc, log, id, ref, r, b, |cluster.fetch(id.namespace, ref).value|, key);
    }
  }

  ghost predicate KeyFailsIn(cluster: Cluster, log: Log, id: NamespacedName, refs: seq<BackendRef>, r: nat, b: nat, key: RefKey)
    requires b <= |refs|
  {
    exists j: nat :: j < b && key == BackendToRefKey(refs[j]) && RefFails(cluster, log, id, refs[j], r, j)
  }

  lemma {:induction false} RefsErrors(acc: Acc, cluster: Cluster, log: Log, id: NamespacedName, refs: seq<BackendRef>, r: nat, b: nat, key: RefKey)
    requires b <= |refs|
    ensures key in AfterRefs(acc, cluster, log, id, refs, r, b).children.errors
       <==> key in acc.children.errors || KeyFailsIn(cluster, log, id, refs, r, b, key)
  {
    hide RefFails;
    hide AfterRef;
    hide BackendToRefKey;
    if b > 0 {
      RefsErrors(acc, cluster, log, id, refs, r, b - 1, key);
      RefErrors(AfterRefs(acc, cluster, log, id, refs, r, b - 1), cluster, log, id, refs[b - 1], r, b - 1, key);
    }
  }

  ghost predicate KeyFails(cluster: Cluster, log: Log, id: NamespacedName, rules: seq<seq<BackendRef>>, r: nat, key: RefKey)
    requires r <= |rules|
  {
    exists j: nat :: j < r && KeyFailsIn(cluster, log, id, rules[j], j, |rules[j]|, key)
  }

  lemma {:induction false} RulesErrors(cluster: Cluster, log: Log, id: NamespacedName, rules: seq<seq<BackendRef>>, r: nat, key: RefKey)
    requires r <= |rules|
    ensures key in AfterRules(cluster, log, id, rules, r).children.errors <==> KeyFails(cluster, log, id, rules, r, key)
  {
    hide KeyFailsIn;
    hide AfterRefs;
    if r > 0 {
      RulesErrors(cluster, log, id, rules, r - 1, key);
      RefsErrors(AfterRules(cluster, log, id, rules, r - 1).(refChildren := []), cluster, log, id, rules[r - 1], r - 1, |rules[r - 1]|, key);
    }
  }

  /** A node records an error under a key exactly when some reference with that key fails to resolve or leads to a
      route that was already visited. */
  lemma NodeErrorsAreExact(cluster: Cluster, log: Log, id: NamespacedName, key: RefKey)
    ensures key in NodeMap(cluster, log, id).errors
       <==> KeyFails(cluster, log, id, cluster.rules(id), |cluster.rules(id)|, key)
  {
    RulesErrors(cluster, log, id, cluster.rules(id), |cluster.rules(id)|, key);
  }

  /** So the error of a cyclic occurrence is what a lookup of its reference returns. */
  lemma CyclicReferenceIsReported(cluster: Cluster, root: NamespacedName, t: Trace, o: Occurrence)
    requires Resolution(cluster, root, t) && o in t.log && t.log[o].None?
    ensures NodeMap(cluster, t.log, o.parent).Lookup(cluster.rules(o.parent)[o.rule][o.ref]).Err?
  {
    hide Reachable;
    hide Infos;
    var rules := cluster.rules(o.parent);
    var ref := rules[o.rule][o.ref];
    assert Outcome(t.log, Occurrence(o.parent, o.rule, o.ref, o.child)).None?;
    assert RefFails(cluster, t.log, o.parent, ref, o.rule, o.ref);
    assert KeyFailsIn(cluster, t.log, o.parent, rules[o.rule], o.rule, |rules[o.rule]|, BackendToRefKey(ref));
    NodeErrorsAreExact(cluster, t.log, o.parent, BackendToRefKey(ref));
  }
}
