/** What the Children maps of a resolved chain hold (projects/gateway2/query/httproute.go: getDelegatedChildren,
    projects/gateway2/query/backendmap.go). */
module RouteChildren {
  import opened Common
  import opened RouteDelegation
  import opened RouteChain

  // ---- which references delegate ----

  /** Only a reference that says so: a missing kind or group does not default to HTTPRoute. */
  lemma DelegatesIff(ref: BackendRef)
    ensures RefIsHTTPRoute(ref) <==>
      ref.kind.Some? && ref.group.Some? && ref.kind.value == "HTTPRoute" && ref.group.value == "gateway.networking.k8s.io"
  {
  }

  // ---- keys ----

  predicate Plain(ref: BackendRef) {
    '~' !in OrEmpty(ref.group) && '~' !in OrEmpty(ref.kind) && '~' !in ref.name && '~' !in OrEmpty(ref.namespace)
  }

  lemma JoinIsInjective(a: string, x: string, b: string, y: string)
    requires '~' !in a && '~' !in b
    ensures a + "~" + x == b + "~" + y <==> a == b && x == y
  {
    var s, t := a + "~" + x, b + "~" + y;
    assert s[|a|] == '~' && t[|b|] == '~';
    assert forall i :: 0 <= i < |a| ==> s[i] == a[i];
    assert forall i :: 0 <= i < |b| ==> t[i] == b[i];
    if s == t {
      assert |a| == |b|;
      assert a == s[..|a|] == t[..|b|] == b;
      assert x == s[|a| + 1..] == t[|b| + 1..] == y;
    }
  }

  /** References of plain names share a key exactly when group, kind, name and namespace agree, missing ones being empty. */
  lemma RefKeyIff(r: BackendRef, q: BackendRef)
    requires Plain(r) && Plain(q)
    ensures BackendToRefKey(r) == BackendToRefKey(q) <==>
      OrEmpty(r.group) == OrEmpty(q.group) && OrEmpty(r.kind) == OrEmpty(q.kind) && r.name == q.name && OrEmpty(r.namespace) == OrEmpty(q.namespace)
  {
    var r2, q2 := r.name + "~" + OrEmpty(r.namespace), q.name + "~" + OrEmpty(q.namespace);
    var r1, q1 := OrEmpty(r.kind) + "~" + r2, OrEmpty(q.kind) + "~" + q2;
    assert BackendToRefKey(r) == OrEmpty(r.group) + "~" + r1;
    assert BackendToRefKey(q) == OrEmpty(q.group) + "~" + q1;
    JoinIsInjective(OrEmpty(r.group), r1, OrEmpty(q.group), q1);
    JoinIsInjective(OrEmpty(r.kind), r2, OrEmpty(q.kind), q2);
    JoinIsInjective(r.name, OrEmpty(r.namespace), q.name, OrEmpty(q.namespace));
  }

  // ---- the nodes of a rule ----

  /** The nodes constructed for the first n routes of reference b of rule r. */
  ghost function NodesAt(log: Log, id: NamespacedName, r: nat, b: nat, n: nat): seq<RouteInfo> {
    if n == 0 then []
    else
      var o := Occurrence(id, r, b, n - 1);
      NodesAt(log, id, r, b, n - 1) + if o in log && log[o].Some? then [log[o].value] else []
  }

  /** The nodes constructed for the first b references of rule r, in order. */
  ghost function NodesUpTo(cluster: Cluster, log: Log, id: NamespacedName, r: nat, b: nat): seq<RouteInfo>
    requires r < |cluster.rules(id)| && b <= |cluster.rules(id)[r]|
  {
    if b == 0 then []
    else
      NodesUpTo(cluster, log, id, r, b - 1)
      + NodesAt(log, id, r, b - 1, |Fetched(cluster, id.namespace, cluster.rules(id)[r][b - 1])|)
  }

  lemma {:induction false} NodesAtHas(log: Log, id: NamespacedName, r: nat, b: nat, n: nat, k: nat)
    requires k < n && Occurrence(id, r, b, k) in log && log[Occurrence(id, r, b, k)].Some?
    ensures log[Occurrence(id, r, b, k)].value in NodesAt(log, id, r, b, n)
  {
    if k < n - 1 {
      NodesAtHas(log, id, r, b, n - 1, k);
    }
  }

  // ---- which reference a key stands for ----

  /** Reference b of rule r is an HTTPRoute reference that resolves, with that key. */
  ghost predicate Has(cluster: Cluster, id: NamespacedName, key: RefKey, r: int, b: int) {
    var rules := cluster.rules(id);
    && 0 <= r < |rules| && 0 <= b < |rules[r]| && RefIsHTTPRoute(rules[r][b])
    && BackendToRefKey(rules[r][b]) == key && cluster.fetch(id.namespace, rules[r][b]).Ok?
  }

  predicate BeforeRef(r2: int, b2: int, r: int, b: int) {
    r2 < r || (r2 == r && b2 < b)
  }

  /** The last such reference before position (r, b). */
  ghost predicate LastBefore(cluster: Cluster, id: NamespacedName, key: RefKey, r2: int, b2: int, r: int, b: int) {
    && Has(cluster, id, key, r2, b2) && BeforeRef(r2, b2, r, b)
    && forall r3, b3 :: Has(cluster, id, key, r3, b3) && BeforeRef(r3, b3, r, b) ==> !BeforeRef(r2, b2, r3, b3)
  }

  ghost predicate SomeBefore(cluster: Cluster, id: NamespacedName, key: RefKey, r: int, b: int) {
    exists r2, b2 :: Has(cluster, id, key, r2, b2) && BeforeRef(r2, b2, r, b)
  }

  /** What is recorded under `key` once everything before (r, b) has been handled. */
  ghost predicate ItemUpTo(items: map<RefKey, seq<RouteInfo>>, cluster: Cluster, log: Log, id: NamespacedName, key: RefKey, r: int, b: int) {
    && (key in items <==> SomeBefore(cluster, id, key, r, b))
    && forall r2, b2 :: LastBefore(cluster, id, key, r2, b2, r, b) ==> key in items && items[key] == NodesUpTo(cluster, log, id, r2, b2 + 1)
  }

  lemma {:induction false} ChildrenNodes(acc: Acc, log: Log, id: NamespacedName, ref: BackendRef, r: nat, b: nat, k: nat)
    ensures var after := AfterChildren(acc, log, id, ref, r, b, k);
      after.refChildren == acc.refChildren + NodesAt(log, id, r, b, k) && after.children.items == acc.children.items
  {
    if k > 0 {
      ChildrenNodes(acc, log, id, ref, r, b, k - 1);
    }
  }

  lemma RefNodes(acc: Acc, cluster: Cluster, log: Log, id: NamespacedName, r: nat, b: nat)
    requires r < |cluster.rules(id)| && b < |cluster.rules(id)[r]|
    ensures var ref := cluster.rules(id)[r][b];
      var after, nodes := AfterRef(acc, cluster, log, id, ref, r, b), NodesAt(log, id, r, b, |Fetched(cluster, id.namespace, ref)|);
      && after.refChildren == acc.refChildren + nodes
      && after.children.items == if Has(cluster, id, BackendToRefKey(ref), r, b)
                                 then acc.children.items[BackendToRefKey(ref) := after.refChildren] else acc.children.items
  {
    var ref := cluster.rules(id)[r][b];
    if RefIsHTTPRoute(ref) && cluster.fetch(id.namespace, ref).Ok? {
      ChildrenNodes(acc, log, id, ref, r, b, |cluster.fetch(id.namespace, ref).value|);
    }
  }

  /** One reference further, when it does not have the key. */
  lemma SkipsOther(cluster: Cluster, id: NamespacedName, key: RefKey, r: int, b: int, next: int)
    requires next == b + 1 && !Has(cluster, id, key, r, b)
    ensures SomeBefore(cluster, id, key, r, next) <==> SomeBefore(cluster, id, key, r, b)
    ensures forall r2, b2 :: LastBefore(cluster, id, key, r2, b2, r, next) ==> LastBefore(cluster, id, key, r2, b2, r, b)
  {
    hide Has;
    forall r2, b2 | Has(cluster, id, key, r2, b2) ensures BeforeRef(r2, b2, r, next) <==> BeforeRef(r2, b2, r, b) {
    }
  }

  /** One reference further, when it has the key. */
  lemma TakesOwn(cluster: Cluster, id: NamespacedName, key: RefKey, r: int, b: int, next: int)
    requires next == b + 1 && Has(cluster, id, key, r, b)
    ensures SomeBefore(cluster, id, key, r, next)
    ensures forall r2, b2 :: LastBefore(cluster, id, key, r2, b2, r, next) ==> r2 == r && b2 == b
  {
    hide Has;
    assert BeforeRef(r, b, r, next);
  }

  lemma ItemStep(items: map<RefKey, seq<RouteInfo>>, cluster: Cluster, log: Log, id: NamespacedName, key: RefKey, r: nat, b: nat, next: nat)
    requires r < |cluster.rules(id)| && b < |cluster.rules(id)[r]| && next == b + 1 && ItemUpTo(items, cluster, log, id, key, r, b)
    ensures var own := BackendToRefKey(cluster.rules(id)[r][b]);
      ItemUpTo(if Has(cluster, id, own, r, b) then items[own := NodesUpTo(cluster, log, id, r, next)] else items, cluster, log, id, key, r, next)
  {
    hide NodesUpTo, Has, SomeBefore, LastBefore, BackendToRefKey;
    var own := BackendToRefKey(cluster.rules(id)[r][b]);
    OnlyOwnKey(cluster, id, key, r, b);
    if Has(cluster, id, key, r, b) {
      TakesOwn(cluster, id, key, r, b, next);
    } else {
      SkipsOther(cluster, id, key, r, b, next);
    }
  }

  lemma OnlyOwnKey(cluster: Cluster, id: NamespacedName, key: RefKey, r: nat, b: nat)
    requires r < |cluster.rules(id)| && b < |cluster.rules(id)[r]|
    ensures Has(cluster, id, key, r, b) ==> key == BackendToRefKey(cluster.rules(id)[r][b])
  {
  }

  lemma {:induction false} RefsNodes(acc: Acc, cluster: Cluster, log: Log, id: NamespacedName, key: RefKey, r: nat, b: nat)
    requires r < |cluster.rules(id)| && b <= |cluster.rules(id)[r]| && acc.refChildren == []
    requires ItemUpTo(acc.children.items, cluster, log, id, key, r, 0)
    ensures var after := AfterRefs(acc, cluster, log, id, cluster.rules(id)[r], r, b);
      after.refChildren == NodesUpTo(cluster, log, id, r, b) && ItemUpTo(after.children.items, cluster, log, id, key, r, b)
  {
    hide ItemUpTo, AfterRef, Has, BackendToRefKey;
    if b > 0 {
      RefsNodes(acc, cluster, log, id, key, r, b - 1);
      var before := AfterRefs(acc, cluster, log, id, cluster.rules(id)[r], r, b - 1);
      RefNodes(before, cluster, log, id, r, b - 1);
      ItemStep(before.children.items, cluster, log, id, key, r, b - 1, b);
    }
  }

  /** The end of a rule is the start of the next. */
  lemma ItemNextRule(items: map<RefKey, seq<RouteInfo>>, cluster: Cluster, log: Log, id: NamespacedName, key: RefKey, r: nat, n: nat, next: nat)
    requires r < |cluster.rules(id)| && n == |cluster.rules(id)[r]| && next == r + 1 && ItemUpTo(items, cluster, log, id, key, r, n)
    ensures ItemUpTo(items, cluster, log, id, key, next, 0)
  {
    forall r2, b2 | Has(cluster, id, key, r2, b2) ensures BeforeRef(r2, b2, next, 0) <==> BeforeRef(r2, b2, r, n) {
    }
    hide NodesUpTo, Has;
    forall r2, b2 | LastBefore(cluster, id, key, r2, b2, next, 0) ensures LastBefore(cluster, id, key, r2, b2, r, n) {
    }
  }

  lemma {:induction false} RulesNodes(cluster: Cluster, log: Log, id: NamespacedName, key: RefKey, r: nat)
    requires r <= |cluster.rules(id)|
    ensures ItemUpTo(AfterRules(cluster, log, id, cluster.rules(id), r).children.items, cluster, log, id, key, r, 0)
  {
    hide ItemUpTo, AfterRefs;
    if r == 0 {
      NothingBefore(cluster, log, id, key);
    } else {
      var n := |cluster.rules(id)[r - 1]|;
      RulesNodes(cluster, log, id, key, r - 1);
      var before := AfterRules(cluster, log, id, cluster.rules(id), r - 1).(refChildren := []);
      RefsNodes(before, cluster, log, id, key, r - 1, n);
      ItemNextRule(AfterRefs(before, cluster, log, id, cluster.rules(id)[r - 1], r - 1, n).children.items, cluster, log, id, key, r - 1, n, r);
    }
  }

  lemma NothingBefore(cluster: Cluster, log: Log, id: NamespacedName, key: RefKey)
    ensures ItemUpTo(map[], cluster, log, id, key, 0, 0)
  {
  }

  /** Reference b of rule r is the last one of the route that resolves with that key. */
  ghost predicate LastWithKey(cluster: Cluster, id: NamespacedName, key: RefKey, r: int, b: int) {
    && Has(cluster, id, key, r, b)
    && forall r3, b3 :: Has(cluster, id, key, r3, b3) ==> !BeforeRef(r, b, r3, b3)
  }

  /** The children recorded under a key: there are some exactly when a reference with the key resolves, and they are the nodes
      of the rule of the last such reference, up to and including it, in order. */
  lemma NodeItemsAreExact(cluster: Cluster, log: Log, id: NamespacedName, key: RefKey)
    ensures key in NodeMap(cluster, log, id).items <==> exists r, b :: Has(cluster, id, key, r, b)
    ensures forall r, b :: LastWithKey(cluster, id, key, r, b) ==>
      key in NodeMap(cluster, log, id).items && NodeMap(cluster, log, id).items[key] == NodesUpTo(cluster, log, id, r, b + 1)
  {
    hide NodesUpTo, BackendToRefKey, RefIsHTTPRoute;
    var n := |cluster.rules(id)|;
    RulesNodes(cluster, log, id, key, n);
    forall r, b | Has(cluster, id, key, r, b) ensures BeforeRef(r, b, n, 0) {
    }
    forall r, b | LastWithKey(cluster, id, key, r, b) ensures LastBefore(cluster, id, key, r, b, n, 0) {
    }
  }

  /** The last reference with a key, from any one. */
  lemma LastExists(cluster: Cluster, id: NamespacedName, key: RefKey, r: int, b: int) returns (r2: int, b2: int)
    requires Has(cluster, id, key, r, b)
    ensures LastWithKey(cluster, id, key, r2, b2) && !BeforeRef(r2, b2, r, b)
    decreases |cluster.rules(id)| - r, |cluster.rules(id)[r]| - b
  {
    hide BackendToRefKey, RefIsHTTPRoute;
    if r3, b3 :| Has(cluster, id, key, r3, b3) && BeforeRef(r, b, r3, b3) {
      r2, b2 := LastExists(cluster, id, key, r3, b3);
    } else {
      r2, b2 := r, b;
    }
  }

  // ---- why a key is in error ----

  /** The reference fails with that error: its own when it does not resolve, a cyclic one when a route of it was visited. */
  ghost predicate FailsWith(cluster: Cluster, log: Log, id: NamespacedName, r: int, b: int, err: RefError) {
    var rules := cluster.rules(id);
    && 0 <= r < |rules| && 0 <= b < |rules[r]| && RefIsHTTPRoute(rules[r][b])
    && match cluster.fetch(id.namespace, rules[r][b])
       case Err(e) => err == e
       case Ok(cs) => err == CyclicReference && exists k: nat :: k < |cs| && Outcome(log, Occurrence(id, r, b, k)).None?
  }

  ghost predicate KeyFailsWith(cluster: Cluster, log: Log, id: NamespacedName, key: RefKey, err: RefError) {
    exists r, b :: FailsWith(cluster, log, id, r, b, err) && BackendToRefKey(cluster.rules(id)[r][b]) == key
  }

  ghost predicate Justified(errors: map<RefKey, RefError>, cluster: Cluster, log: Log, id: NamespacedName) {
    forall key <- errors :: KeyFailsWith(cluster, log, id, key, errors[key])
  }

  lemma {:induction false} ChildrenJustified(acc: Acc, cluster: Cluster, log: Log, id: NamespacedName, r: nat, b: nat, k: nat)
    requires r < |cluster.rules(id)| && b < |cluster.rules(id)[r]| && RefIsHTTPRoute(cluster.rules(id)[r][b])
    requires cluster.fetch(id.namespace, cluster.rules(id)[r][b]).Ok? && k <= |cluster.fetch(id.namespace, cluster.rules(id)[r][b]).value|
    requires Justified(acc.children.errors, cluster, log, id)
    ensures Justified(AfterChildren(acc, log, id, cluster.rules(id)[r][b], r, b, k).children.errors, cluster, log, id)
  {
    hide BackendToRefKey, RefIsHTTPRoute;
    if k > 0 {
      ChildrenJustified(acc, cluster, log, id, r, b, k - 1);
      if Outcome(log, Occurrence(id, r, b, k - 1)).None? {
        assert FailsWith(cluster, log, id, r, b, CyclicReference);
      }
    }
  }

  lemma {:induction false} RefsJustified(acc: Acc, cluster: Cluster, log: Log, id: NamespacedName, r: nat, b: nat)
    requires r < |cluster.rules(id)| && b <= |cluster.rules(id)[r]| && Justified(acc.children.errors, cluster, log, id)
    ensures Justified(AfterRefs(acc, cluster, log, id, cluster.rules(id)[r], r, b).children.errors, cluster, log, id)
  {
    hide BackendToRefKey, AfterChildren;
    if b > 0 {
      RefsJustified(acc, cluster, log, id, r, b - 1);
      var before, ref := AfterRefs(acc, cluster, log, id, cluster.rules(id)[r], r, b - 1), cluster.rules(id)[r][b - 1];
      if RefIsHTTPRoute(ref) {
        match cluster.fetch(id.namespace, ref) {
          case Err(e) => assert FailsWith(cluster, log, id, r, b - 1, e);
          case Ok(cs) => ChildrenJustified(before, cluster, log, id, r, b - 1, |cs|);
        }
      }
    }
  }

  lemma {:induction false} RulesJustified(cluster: Cluster, log: Log, id: NamespacedName, r: nat)
    requires r <= |cluster.rules(id)|
    ensures Justified(AfterRules(cluster, log, id, cluster.rules(id), r).children.errors, cluster, log, id)
  {
    hide AfterRefs;
    if r > 0 {
      hide Justified;
      RulesJustified(cluster, log, id, r - 1);
      RefsJustified(AfterRules(cluster, log, id, cluster.rules(id), r - 1).(refChildren := []), cluster, log, id, r - 1, |cluster.rules(id)[r - 1]|);
    }
  }

  /** The recorded error is that of a reference with the key. */
  lemma NodeErrorsAreReasons(cluster: Cluster, log: Log, id: NamespacedName, key: RefKey)
    requires key in NodeMap(cluster, log, id).errors
    ensures KeyFailsWith(cluster, log, id, key, NodeMap(cluster, log, id).errors[key])
  {
    hide KeyFailsWith;
    RulesJustified(cluster, log, id, |cluster.rules(id)|);
  }

  // ---- a delegation tree is found complete ----

  /** References of the route that share a key resolve to the same routes, as they do for plain names. */
  ghost predicate KeysResolveAlike(cluster: Cluster, id: NamespacedName) {
    forall r, b, r2, b2 ::
      var rules := cluster.rules(id);
      0 <= r < |rules| && 0 <= b < |rules[r]| && 0 <= r2 < |rules| && 0 <= b2 < |rules[r2]|
      && BackendToRefKey(rules[r][b]) == BackendToRefKey(rules[r2][b2]) ==>
        cluster.fetch(id.namespace, rules[r][b]) == cluster.fetch(id.namespace, rules[r2][b2])
  }

  lemma TreeHasNoErrors(cluster: Cluster, root: NamespacedName, t: Trace, o: Occurrence)
    requires Resolution(cluster, root, t) && NoCyclicReference(t) && o in t.log && KeysResolveAlike(cluster, o.parent)
    ensures BackendToRefKey(cluster.rules(o.parent)[o.rule][o.ref]) !in NodeMap(cluster, t.log, o.parent).errors
  {
    hide Reachable, Infos, BackendToRefKey, NodeMap;
    var id, rules := o.parent, cluster.rules(o.parent);
    var key := BackendToRefKey(rules[o.rule][o.ref]);
    if key in NodeMap(cluster, t.log, id).errors {
      var err := NodeMap(cluster, t.log, id).errors[key];
      NodeErrorsAreReasons(cluster, t.log, id, key);
      var r, b :| FailsWith(cluster, t.log, id, r, b, err) && BackendToRefKey(rules[r][b]) == key;
      NoFailure(cluster, root, t, o, r, b, err);
    }
  }

  lemma NoFailure(cluster: Cluster, root: NamespacedName, t: Trace, o: Occurrence, r: int, b: int, err: RefError)
    requires Resolution(cluster, root, t) && NoCyclicReference(t) && o in t.log && KeysResolveAlike(cluster, o.parent)
    requires 0 <= r < |cluster.rules(o.parent)| && 0 <= b < |cluster.rules(o.parent)[r]|
    requires BackendToRefKey(cluster.rules(o.parent)[r][b]) == BackendToRefKey(cluster.rules(o.parent)[o.rule][o.ref])
    ensures !FailsWith(cluster, t.log, o.parent, r, b, err)
  {
    hide Reachable, Infos, BackendToRefKey;
    var id, ref := o.parent, cluster.rules(o.parent)[r][b];
    assert cluster.fetch(id.namespace, ref) == cluster.fetch(id.namespace, cluster.rules(id)[o.rule][o.ref]);
    if RefIsHTTPRoute(ref) {
      forall k: nat | k < |cluster.fetch(id.namespace, ref).value| ensures Outcome(t.log, Occurrence(id, r, b, k)).Some? {
        assert IsOccurrence(cluster, Occurrence(id, r, b, k));
      }
    }
  }

  /** In a delegation tree every referenced route is found: looking up its reference in the map of its parent, the root or an
      inner node, yields its node among the children. */
  lemma TreeChildrenAreFound(cluster: Cluster, root: NamespacedName, t: Trace, o: Occurrence)
    requires Resolution(cluster, root, t) && IsDelegationTree(cluster, root) && o in t.log && KeysResolveAlike(cluster, o.parent)
    ensures t.log[o].Some? && t.log[o].value.route == ChildOf(cluster, o) && t.log[o].value.parent == o.parent
    ensures var found := NodeMap(cluster, t.log, o.parent).Lookup(cluster.rules(o.parent)[o.rule][o.ref]);
      found.Ok? && t.log[o].value in found.value
  {
    hide Reachable, BackendToRefKey, NodeMap, NodesUpTo, NodesAt;
    hide IsDelegationTree, KeysResolveAlike, LastWithKey, NodeMap;
    var id := o.parent;
    var key := BackendToRefKey(cluster.rules(id)[o.rule][o.ref]);
    NoCyclicErrorIffTree(cluster, root, t);
    TreeHasNoErrors(cluster, root, t, o);
    FoundInItems(cluster, root, t, o);
  }

  /** The node of `o` is among the children recorded under its key. */
  lemma FoundInItems(cluster: Cluster, root: NamespacedName, t: Trace, o: Occurrence)
    requires Resolution(cluster, root, t) && IsDelegationTree(cluster, root) && o in t.log && t.log[o].Some? && KeysResolveAlike(cluster, o.parent)
    ensures var key := BackendToRefKey(cluster.rules(o.parent)[o.rule][o.ref]);
      key in NodeMap(cluster, t.log, o.parent).items && t.log[o].value in NodeMap(cluster, t.log, o.parent).items[key]
  {
    hide Reachable, Infos, BackendToRefKey, NodeMap, NodesUpTo, IsDelegationTree, KeysResolveAlike;
    var id := o.parent;
    var key := BackendToRefKey(cluster.rules(id)[o.rule][o.ref]);
    NodeItemsAreExact(cluster, t.log, id, key);
    assert Has(cluster, id, key, o.rule, o.ref);
    var r, b := LastExists(cluster, id, key, o.rule, o.ref);
    SameOccurrence(cluster, root, t, o, Occurrence(id, r, b, o.child));
    LastNodes(cluster, t.log, o);
  }

  lemma SameOccurrence(cluster: Cluster, root: NamespacedName, t: Trace, o: Occurrence, q: Occurrence)
    requires Resolution(cluster, root, t) && IsDelegationTree(cluster, root) && o in t.log && KeysResolveAlike(cluster, o.parent)
    requires q.parent == o.parent && q.child == o.child && Has(cluster, o.parent, BackendToRefKey(cluster.rules(o.parent)[o.rule][o.ref]), q.rule, q.ref)
    ensures q == o
  {
    hide Reachable, Infos, BackendToRefKey;
    var rules := cluster.rules(o.parent);
    assert cluster.fetch(o.parent.namespace, rules[q.rule][q.ref]) == cluster.fetch(o.parent.namespace, rules[o.rule][o.ref]);
    assert IsOccurrence(cluster, q) && ChildOf(cluster, q) == ChildOf(cluster, o);
    assert ReachableEdge(cluster, root, o) && ReachableEdge(cluster, root, q);
  }

  lemma LastNodes(cluster: Cluster, log: Log, o: Occurrence)
    requires IsOccurrence(cluster, o) && o in log && log[o].Some?
    ensures log[o].value in NodesUpTo(cluster, log, o.parent, o.rule, o.ref + 1)
  {
    NodesAtHas(log, o.parent, o.rule, o.ref, |Fetched(cluster, o.parent.namespace, cluster.rules(o.parent)[o.rule][o.ref])|, o.child);
  }
}
