/** Index-accelerated queries (projects/gateway2/query/indexers.go) against full scans. */
module Indexers {
  import opened Common
  import opened Attachment

  // ---- routes by target gateway ----

  function TargetKey(namespace: string, name: string): string {
    namespace + "/" + name
  }

  predicate Indexed(ref: ParentRef) {
    (ref.group.None? || ref.group.value == GROUP_NAME) && (ref.kind.None? || ref.kind.value == "Gateway")
  }

  /** Unlike the query, the indexer treats an empty namespace like a missing one. */
  function IndexNamespace(route: HTTPRoute, ref: ParentRef): string {
    if ref.namespace.None? || ref.namespace.value == "" then route.namespace else ref.namespace.value
  }

  method HttpRouteToTargetIndexer(route: HTTPRoute) returns (keys: seq<string>)
    ensures forall key :: key in keys <==> InTargetIndex(route, key)
  {
    keys := [];
    for i := 0 to |route.parentRefs|
      invariant forall key :: key in keys <==>
        exists j :: 0 <= j < i && Indexed(route.parentRefs[j]) && key == KeyFor(route, route.parentRefs[j])
    {
      var ref := route.parentRefs[i];
      if ref.group.Some? && ref.group.value != GROUP_NAME {
        continue;
      }
      if ref.kind.Some? && ref.kind.value != "Gateway" {
        continue;
      }
      var ns := if ref.namespace.None? then "" else ref.namespace.value;
      if ns == "" {
        ns := route.namespace;
      }
      keys := keys + [TargetKey(ns, ref.name)];
    }
  }

  function KeyFor(route: HTTPRoute, ref: ParentRef): string {
    TargetKey(IndexNamespace(route, ref), ref.name)
  }

  predicate InTargetIndex(route: HTTPRoute, key: string) {
    exists i :: 0 <= i < |route.parentRefs| && Indexed(route.parentRefs[i]) && key == KeyFor(route, route.parentRefs[i])
  }

  /** A route is indexed under a gateway exactly when a parentRef of its names one of that name and namespace; an empty
      namespace is the route's own. */
  lemma InTargetIndexIff(route: HTTPRoute, namespace: string, name: string)
    requires '/' !in namespace
    requires forall i :: 0 <= i < |route.parentRefs| ==> '/' !in IndexNamespace(route, route.parentRefs[i])
    ensures InTargetIndex(route, TargetKey(namespace, name)) <==>
      exists i :: 0 <= i < |route.parentRefs| && Targets(route, route.parentRefs[i], namespace, name)
  {
    forall i | 0 <= i < |route.parentRefs|
      ensures Indexed(route.parentRefs[i]) && TargetKey(namespace, name) == KeyFor(route, route.parentRefs[i])
         <==> Targets(route, route.parentRefs[i], namespace, name)
    {
      TargetKeyIsInjective(namespace, name, IndexNamespace(route, route.parentRefs[i]), route.parentRefs[i].name);
    }
  }

  ghost predicate Targets(route: HTTPRoute, ref: ParentRef, namespace: string, name: string) {
    && ref.group in {None, Some("gateway.networking.k8s.io")} && ref.kind in {None, Some("Gateway")} && ref.name == name
    && (if ref.namespace in {None, Some("")} then route.namespace == namespace else ref.namespace == Some(namespace))
  }

  lemma TargetKeyIsInjective(ns1: string, name1: string, ns2: string, name2: string)
    requires '/' !in ns1 && '/' !in ns2
    ensures TargetKey(ns1, name1) == TargetKey(ns2, name2) <==> ns1 == ns2 && name1 == name2
  {
    var s, t := TargetKey(ns1, name1), TargetKey(ns2, name2);
    assert s[|ns1|] == '/' && t[|ns2|] == '/';
    assert forall i :: 0 <= i < |ns1| ==> s[i] == ns1[i];
    assert forall i :: 0 <= i < |ns2| ==> t[i] == ns2[i];
    if s == t {
      assert |ns1| == |ns2|;
      assert ns1 == s[..|ns1|] == t[..|ns2|] == ns2;
      assert name1 == s[|ns1| + 1..] == t[|ns2| + 1..] == name2;
    }
  }

  /** What the client returns for a field selector on the target index. */
  function RoutesByTarget(routes: seq<HTTPRoute>, key: string): seq<HTTPRoute> {
    if routes == [] then []
    else
      var last := routes[|routes| - 1];
      RoutesByTarget(routes[..|routes| - 1], key) + if InTargetIndex(last, key) then [last] else []
  }

  lemma {:induction false} NoRefsIffNone(gw: Gateway, route: HTTPRoute, refs: seq<ParentRef>)
    ensures RefsForGw(gw, route, refs) != [] <==> exists i :: 0 <= i < |refs| && RefersTo(gw, route, refs[i])
  {
    if refs != [] {
      var n := |refs| - 1;
      NoRefsIffNone(gw, route, refs[..n]);
      assert forall i :: 0 <= i < n ==> refs[..n][i] == refs[i];
    }
  }

  lemma MatchingRouteIsIndexed(gw: Gateway, route: HTTPRoute)
    requires gw.namespace != "" && RefsForGw(gw, route, route.parentRefs) != []
    ensures InTargetIndex(route, TargetKey(gw.namespace, gw.name))
  {
    NoRefsIffNone(gw, route, route.parentRefs);
    var i :| 0 <= i < |route.parentRefs| && RefersTo(gw, route, route.parentRefs[i]);
    assert Indexed(route.parentRefs[i]) && KeyFor(route, route.parentRefs[i]) == TargetKey(gw.namespace, gw.name);
  }

  lemma {:induction false} IndexedPairsAgree(gw: Gateway, routes: seq<HTTPRoute>)
    requires gw.namespace != ""
    ensures Pairs(gw, RoutesByTarget(routes, TargetKey(gw.namespace, gw.name))) == Pairs(gw, routes)
  {
    if routes != [] {
      var n, key := |routes| - 1, TargetKey(gw.namespace, gw.name);
      var last, found := routes[n], RoutesByTarget(routes[..n], key);
      IndexedPairsAgree(gw, routes[..n]);
      if InTargetIndex(last, key) {
        assert (found + [last])[..|found|] == found;
      } else {
        if RefsForGw(gw, last, last.parentRefs) != [] {
          MatchingRouteIsIndexed(gw, last);
        }
        assert found + [] == found;
      }
    }
  }

  /** Query by index and full scan give the same pairs for every list of routes exactly when the gateway has a
      namespace, as every stored gateway does. */
  lemma TargetIndexIsExact(gw: Gateway)
    ensures (forall routes :: Pairs(gw, RoutesByTarget(routes, TargetKey(gw.namespace, gw.name))) == Pairs(gw, routes))
       <==> gw.namespace != ""
  {
    if gw.namespace != "" {
      forall routes ensures Pairs(gw, RoutesByTarget(routes, TargetKey(gw.namespace, gw.name))) == Pairs(gw, routes) {
        IndexedPairsAgree(gw, routes);
      }
    } else {
      var ref := ParentRef(None, None, Some(""), gw.name, None, None);
      var route := HTTPRoute("r", "x", [ref], None);
      var key := TargetKey("", gw.name);
      assert RefersTo(gw, route, route.parentRefs[0]);
      assert KeyFor(route, ref)[0] == 'x' && key[0] == '/';
      assert !InTargetIndex(route, key);
      assert [route][..0] == [];
      assert RoutesByTarget([route], key) == [];
      NoRefsIffNone(gw, route, [ref]);
      assert Pairs(gw, [route]) == Pairs(gw, []) + WithRoute(route, RefsForGw(gw, route, [ref]));
      assert Pairs(gw, RoutesByTarget([route], TargetKey(gw.namespace, gw.name))) != Pairs(gw, [route]);
    }
  }

  // ---- reference grants by from-namespace ----

  datatype GrantFrom = GrantFrom(group: string, kind: string, namespace: string)

  datatype GrantTo = GrantTo(group: string, kind: string, name: Option<string>)

  datatype ReferenceGrant = ReferenceGrant(from: seq<GrantFrom>, to: seq<GrantTo>)

  datatype Reference = Reference(from: GroupKind, fromNamespace: string, to: GroupKind, toName: string)

  function CoreIfEmpty(group: string): string {
    if group == "" then "core" else group
  }

  predicate FromMatches(f: GrantFrom, r: Reference) {
    f.namespace == r.fromNamespace && CoreIfEmpty(r.from.group) == CoreIfEmpty(f.group) && r.from.kind == f.kind
  }

  predicate ToMatches(t: GrantTo, r: Reference) {
    CoreIfEmpty(r.to.group) == CoreIfEmpty(t.group) && r.to.kind == t.kind && (t.name.None? || t.name.value == r.toName)
  }

  ghost predicate Permits(g: ReferenceGrant, r: Reference) {
    (exists i :: 0 <= i < |g.from| && FromMatches(g.from[i], r)) && (exists j :: 0 <= j < |g.to| && ToMatches(g.to[j], r))
  }

  /** The empty group is another name of the core group. */
  ghost predicate SameGroup(a: string, b: string) {
    a == b || (a in {"", "core"} && b in {"", "core"})
  }

  /** A grant permits a reference exactly when it lists the referring kind in that namespace and the target kind, the latter
      without a name or with the target's. */
  lemma PermitsIff(g: ReferenceGrant, r: Reference)
    ensures Permits(g, r) <==>
      && (exists i :: 0 <= i < |g.from| && g.from[i].kind == r.from.kind && g.from[i].namespace == r.fromNamespace && SameGroup(g.from[i].group, r.from.group))
      && (exists j :: 0 <= j < |g.to| && g.to[j].kind == r.to.kind && g.to[j].name in {None, Some(r.toName)} && SameGroup(g.to[j].group, r.to.group))
  {
    forall i | 0 <= i < |g.from|
      ensures FromMatches(g.from[i], r) <==>
        g.from[i].kind == r.from.kind && g.from[i].namespace == r.fromNamespace && SameGroup(g.from[i].group, r.from.group)
    {
    }
    forall j | 0 <= j < |g.to|
      ensures ToMatches(g.to[j], r) <==>
        g.to[j].kind == r.to.kind && g.to[j].name in {None, Some(r.toName)} && SameGroup(g.to[j].group, r.to.group)
    {
    }
  }

  /** Some grant permits the reference. */
  method ReferenceAllowed(r: Reference, grants: seq<ReferenceGrant>) returns (allowed: bool)
    ensures allowed <==> exists i :: 0 <= i < |grants| && Permits(grants[i], r)
  {
    for i := 0 to |grants|
      invariant forall k :: 0 <= k < i ==> !Permits(grants[k], r)
    {
      var g := grants[i];
      for j := 0 to |g.from|
        invariant (exists k :: 0 <= k < j && FromMatches(g.from[k], r)) ==> forall k :: 0 <= k < |g.to| ==> !ToMatches(g.to[k], r)
      {
        if g.from[j].namespace != r.fromNamespace {
          continue;
        }
        if CoreIfEmpty(r.from.group) == CoreIfEmpty(g.from[j].group) && r.from.kind == g.from[j].kind {
          for k := 0 to |g.to|
            invariant forall m :: 0 <= m < k ==> !ToMatches(g.to[m], r)
          {
            if ToMatches(g.to[k], r) {
              assert FromMatches(g.from[j], r);
              return true;
            }
          }
        }
      }
    }
    return false;
  }

  method RefGrantFromIndexer(g: ReferenceGrant) returns (keys: seq<string>)
    ensures forall ns :: ns in keys <==> InFromIndex(g, ns)
  {
    keys := [];
    for i := 0 to |g.from|
      invariant forall ns :: ns in keys <==> ns != "" && exists j :: 0 <= j < i && g.from[j].namespace == ns
    {
      if g.from[i].namespace != "" {
        keys := keys + [g.from[i].namespace];
      }
    }
  }

  predicate InFromIndex(g: ReferenceGrant, namespace: string) {
    namespace != "" && exists i :: 0 <= i < |g.from| && g.from[i].namespace == namespace
  }

  function GrantsByFrom(grants: seq<ReferenceGrant>, namespace: string): seq<ReferenceGrant> {
    if grants == [] then []
    else
      var last := grants[|grants| - 1];
      GrantsByFrom(grants[..|grants| - 1], namespace) + if InFromIndex(last, namespace) then [last] else []
  }

  ghost predicate AnyPermits(grants: seq<ReferenceGrant>, r: Reference) {
    exists g :: g in grants && Permits(g, r)
  }

  lemma {:induction false} GrantsByFromMembers(grants: seq<ReferenceGrant>, namespace: string)
    ensures forall g :: g in GrantsByFrom(grants, namespace) <==> g in grants && InFromIndex(g, namespace)
  {
    if grants != [] {
      var n := |grants| - 1;
      GrantsByFromMembers(grants[..n], namespace);
      assert grants == grants[..n] + [grants[n]];
    }
  }

  /** Prefiltering grants by from-namespace never changes the answer exactly when the referring namespace is not empty;
      the callers default an empty one to `default`. */
  lemma FromIndexIsExact(r: Reference)
    ensures (forall grants :: AnyPermits(GrantsByFrom(grants, r.fromNamespace), r) <==> AnyPermits(grants, r))
       <==> r.fromNamespace != ""
  {
    if r.fromNamespace != "" {
      forall grants ensures AnyPermits(GrantsByFrom(grants, r.fromNamespace), r) <==> AnyPermits(grants, r) {
        GrantsByFromMembers(grants, r.fromNamespace);
        if AnyPermits(grants, r) {
          var g :| g in grants && Permits(g, r);
          var i :| 0 <= i < |g.from| && FromMatches(g.from[i], r);
          assert g.from[i].namespace == r.fromNamespace;
          assert g in GrantsByFrom(grants, r.fromNamespace);
        }
      }
    } else {
      var g := ReferenceGrant([GrantFrom(r.from.group, r.from.kind, "")], [GrantTo(r.to.group, r.to.kind, None)]);
      assert FromMatches(g.from[0], r) && ToMatches(g.to[0], r);
      assert g in [g] && Permits(g, r);
      GrantsByFromMembers([g], r.fromNamespace);
      assert AnyPermits([g], r) && !AnyPermits(GrantsByFrom([g], r.fromNamespace), r);
    }
  }
}
