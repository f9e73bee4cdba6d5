/** Attaching HTTPRoutes to the listeners of a Gateway (projects/gateway2/query/httproute.go: GetRoutesForGateway,
    projects/gateway2/query/query.go). */
module Attachment {
  import opened Common
  import opened Sequences
  import opened Hostnames

  const GROUP_NAME := "gateway.networking.k8s.io"
  const HTTP_ROUTE_KIND := "HTTPRoute"

  datatype ParentRef = ParentRef(group: Option<string>, kind: Option<string>, namespace: Option<string>, name: string,
                                 sectionName: Option<string>, port: Option<int>)

  datatype HTTPRoute = HTTPRoute(name: string, namespace: string, parentRefs: seq<ParentRef>, hostnames: RouteHostnames)

  datatype Protocol = HTTP | HTTPS | TLS | TCP | UDP | Custom(name: string)

  datatype RouteGroupKind = RouteGroupKind(group: Option<string>, kind: string)

  datatype GroupKind = GroupKind(group: string, kind: string)

  /** A label selector: the namespaces whose labels it matches, or one that does not parse. */
  datatype Selector = Selector(namespaces: set<string>) | InvalidSelector

  datatype From = FromAll | FromSame | FromSelector(selector: Option<Selector>)

  datatype AllowedRoutes = AllowedRoutes(kinds: Option<seq<RouteGroupKind>>, from: Option<From>)

  datatype Listener = Listener(name: string, port: int, protocol: Protocol, hostname: ListenerHostname, allowedRoutes: Option<AllowedRoutes>)

  datatype Gateway = Gateway(name: string, namespace: string, listeners: seq<Listener>)

  // ---- the rules a listener sets ----

  datatype NamespaceRule = OnlyNamespace(namespace: string) | AnyNamespace | InNamespaces(namespaces: set<string>)

  predicate NamespaceAllowed(rule: NamespaceRule, namespace: string) {
    match rule
    case OnlyNamespace(ns) => ns == namespace
    case AnyNamespace => true
    case InNamespaces(nss) => namespace in nss
  }

  datatype SelectorError = SelectorMissing | SelectorInvalid

  function DefaultKinds(protocol: Protocol): seq<GroupKind> {
    match protocol
    case HTTP => [GroupKind(GROUP_NAME, HTTP_ROUTE_KIND)]
    case HTTPS => [GroupKind(GROUP_NAME, HTTP_ROUTE_KIND)]
    case TLS => [GroupKind("", "")]
    case TCP => [GroupKind("", "")]
    case UDP => [GroupKind("", "")]
    case Custom(_) => [GroupKind(GROUP_NAME, HTTP_ROUTE_KIND)]
  }

  function AllowedKinds(l: Listener): seq<GroupKind> {
    if l.allowedRoutes.None? || l.allowedRoutes.value.kinds.None? then DefaultKinds(l.protocol)
    else
      var kinds := l.allowedRoutes.value.kinds.value;
      seq(|kinds|, i requires 0 <= i < |kinds| =>
        GroupKind(if kinds[i].group.None? then GROUP_NAME else kinds[i].group.value, kinds[i].kind))
  }

  function AllowedNamespaces(gw: Gateway, l: Listener): Result<NamespaceRule, SelectorError> {
    if l.allowedRoutes.None? || l.allowedRoutes.value.from.None? then Ok(OnlyNamespace(gw.namespace))
    else
      match l.allowedRoutes.value.from.value
      case FromAll => Ok(AnyNamespace)
      case FromSame => Ok(OnlyNamespace(gw.namespace))
      case FromSelector(None) => Err(SelectorMissing)
      case FromSelector(Some(InvalidSelector)) => Err(SelectorInvalid)
      case FromSelector(Some(Selector(nss))) => Ok(InNamespaces(nss))
  }

  ghost predicate IsHttpRouteKind(k: GroupKind) {
    (k.group == "" || k.group == GROUP_NAME) && k.kind == HTTP_ROUTE_KIND
  }

  method IsHttpRouteAllowed(kinds: seq<GroupKind>) returns (r: bool)
    ensures r <==> exists i :: 0 <= i < |kinds| && IsHttpRouteKind(kinds[i])
  {
    for i := 0 to |kinds|
      invariant forall j :: 0 <= j < i ==> !IsHttpRouteKind(kinds[j])
    {
      var group := if kinds[i].group == "" then GROUP_NAME else kinds[i].group;
      if group == GROUP_NAME && kinds[i].kind == HTTP_ROUTE_KIND {
        return true;
      }
    }
    return false;
  }

  // ---- the three stages ----

  /** The from-clause of the listener, absent meaning Same. */
  ghost predicate AllowsNamespace(gw: Gateway, l: Listener, namespace: string) {
    if l.allowedRoutes.None? || l.allowedRoutes.value.from.None? then namespace == gw.namespace
    else
      match l.allowedRoutes.value.from.value
      case FromAll => true
      case FromSame => namespace == gw.namespace
      case FromSelector(s) => s.Some? && s.value.Selector? && namespace in s.value.namespaces
  }

  /** HTTPRoute is among the listed kinds, or none are listed and the protocol carries HTTP or is a custom one. */
  ghost predicate AllowsHttpRoutes(l: Listener) {
    if l.allowedRoutes.None? || l.allowedRoutes.value.kinds.None? then l.protocol.HTTP? || l.protocol.HTTPS? || l.protocol.Custom?
    else
      var kinds := l.allowedRoutes.value.kinds.value;
      exists i :: 0 <= i < |kinds| && kinds[i].kind == "HTTPRoute"
                  && (kinds[i].group.None? || kinds[i].group.value == "" || kinds[i].group.value == "gateway.networking.k8s.io")
  }

  ghost predicate BadSelector(l: Listener) {
    && l.allowedRoutes.Some? && l.allowedRoutes.value.from.Some? && l.allowedRoutes.value.from.value.FromSelector?
    && var s := l.allowedRoutes.value.from.value.selector; s.None? || s.value.InvalidSelector?
  }

  /** The listener accepts HTTPRoutes from the route's namespace, by its fields. */
  ghost predicate Allows(gw: Gateway, l: Listener, route: HTTPRoute) {
    AllowsHttpRoutes(l) && AllowsNamespace(gw, l, route.namespace)
  }

  /** The code's rules say the same. */
  lemma AllowsIff(gw: Gateway, l: Listener, route: HTTPRoute)
    ensures AllowedNamespaces(gw, l).Err? <==> BadSelector(l)
    ensures BadSelector(l) ==>
      AllowedNamespaces(gw, l).error == if l.allowedRoutes.value.from.value.selector.None? then SelectorMissing else SelectorInvalid
    ensures Allows(gw, l, route) <==>
      && AllowedNamespaces(gw, l).Ok? && NamespaceAllowed(AllowedNamespaces(gw, l).value, route.namespace)
      && exists i :: 0 <= i < |AllowedKinds(l)| && IsHttpRouteKind(AllowedKinds(l)[i])
  {
    KindsIff(l);
    if l.allowedRoutes.Some? && l.allowedRoutes.value.from.Some? {
      match l.allowedRoutes.value.from.value {
        case FromAll =>
        case FromSame =>
        case FromSelector(s) =>
          if s.Some? {
            match s.value {
              case Selector(_) =>
              case InvalidSelector =>
            }
          }
      }
    }
  }

  lemma KindsIff(l: Listener)
    ensures AllowsHttpRoutes(l) <==> exists i :: 0 <= i < |AllowedKinds(l)| && IsHttpRouteKind(AllowedKinds(l)[i])
  {
    var allowed := AllowedKinds(l);
    if l.allowedRoutes.None? || l.allowedRoutes.value.kinds.None? {
      assert |allowed| == 1 && (IsHttpRouteKind(allowed[0]) <==> l.protocol.HTTP? || l.protocol.HTTPS? || l.protocol.Custom?);
    } else {
      var kinds := l.allowedRoutes.value.kinds.value;
      forall i | 0 <= i < |kinds|
        ensures IsHttpRouteKind(allowed[i]) <==>
          kinds[i].kind == "HTTPRoute" && (kinds[i].group.None? || kinds[i].group.value == "" || kinds[i].group.value == "gateway.networking.k8s.io")
      {
      }
    }
  }

  predicate ParentRefMatchListener(ref: ParentRef, l: Listener) {
    (ref.port.None? || ref.port.value == l.port) && (ref.sectionName.None? || ref.sectionName.value == l.name)
  }

  /** Each of port and section name that the reference gives is the listener's. */
  lemma MatchesListenerIff(ref: ParentRef, l: Listener)
    ensures ParentRefMatchListener(ref, l) <==> ref.port in {None, Some(l.port)} && ref.sectionName in {None, Some(l.name)}
  {
  }

  predicate HostsIntersect(l: Listener, route: HTTPRoute) {
    Intersect(l.hostname, route.hostnames).0
  }

  ghost predicate Selects(gw: Gateway, l: Listener, route: HTTPRoute, ref: ParentRef) {
    Allows(gw, l, route) && ParentRefMatchListener(ref, l)
  }

  ghost predicate Attaches(gw: Gateway, l: Listener, route: HTTPRoute, ref: ParentRef) {
    Selects(gw, l, route, ref) && HostsIntersect(l, route)
  }

  datatype Reason = NotAllowedByListeners | NoMatchingParent | NoMatchingListenerHostname

  /** The first stage that no listener survives, if any. */
  ghost function ErrorFor(gw: Gateway, route: HTTPRoute, ref: ParentRef): Option<Reason> {
    if !exists i :: 0 <= i < |gw.listeners| && Allows(gw, gw.listeners[i], route) then Some(NotAllowedByListeners)
    else if !exists i :: 0 <= i < |gw.listeners| && Selects(gw, gw.listeners[i], route, ref) then Some(NoMatchingParent)
    else if !exists i :: 0 <= i < |gw.listeners| && Attaches(gw, gw.listeners[i], route, ref) then Some(NoMatchingListenerHostname)
    else None
  }

  // ---- matching parentRefs ----

  predicate RefersTo(gw: Gateway, route: HTTPRoute, ref: ParentRef) {
    && (ref.group.None? || ref.group.value == GROUP_NAME)
    && (ref.kind.None? || ref.kind.value == "Gateway")
    && (if ref.namespace.None? then route.namespace else ref.namespace.value) == gw.namespace
    && ref.name == gw.name
  }

  /** A reference is to the gateway when group and kind are a gateway's or missing, and namespace, which defaults to the
      route's, and name are the gateway's. */
  lemma RefersToIff(gw: Gateway, route: HTTPRoute, ref: ParentRef)
    ensures RefersTo(gw, route, ref) <==>
      && ref.group in {None, Some("gateway.networking.k8s.io")} && ref.kind in {None, Some("Gateway")}
      && (ref.namespace == Some(gw.namespace) || (ref.namespace == None && route.namespace == gw.namespace))
      && ref.name == gw.name
  {
  }

  /** A route with one of its parentRefs to the gateway. */
  datatype Pair = Pair(route: HTTPRoute, ref: ParentRef)

  function RefsForGw(gw: Gateway, route: HTTPRoute, refs: seq<ParentRef>): seq<ParentRef> {
    if refs == [] then []
    else
      var last := refs[|refs| - 1];
      RefsForGw(gw, route, refs[..|refs| - 1]) + if RefersTo(gw, route, last) then [last] else []
  }

  method GetParentRefsForGw(gw: Gateway, route: HTTPRoute) returns (refs: seq<ParentRef>)
    ensures refs == RefsForGw(gw, route, route.parentRefs)
  {
    refs := [];
    for i := 0 to |route.parentRefs|
      invariant refs == RefsForGw(gw, route, route.parentRefs[..i])
    {
      assert route.parentRefs[..i + 1][..i] == route.parentRefs[..i];
      var ref := route.parentRefs[i];
      if ref.group.Some? && ref.group.value != GROUP_NAME {
        continue;
      }
      if ref.kind.Some? && ref.kind.value != "Gateway" {
        continue;
      }
      var ns := route.namespace;
      if ref.namespace.Some? {
        ns := ref.namespace.value;
      }
      if ns == gw.namespace && ref.name == gw.name {
        refs := refs + [ref];
      }
    }
    assert route.parentRefs[..|route.parentRefs|] == route.parentRefs;
  }

  function WithRoute(route: HTTPRoute, refs: seq<ParentRef>): seq<Pair> {
    seq(|refs|, i requires 0 <= i < |refs| => Pair(route, refs[i]))
  }

  /** Every matching pair, in the order the code meets them. */
  function Pairs(gw: Gateway, routes: seq<HTTPRoute>): seq<Pair> {
    if routes == [] then []
    else
      var last := routes[|routes| - 1];
      Pairs(gw, routes[..|routes| - 1]) + WithRoute(last, RefsForGw(gw, last, last.parentRefs))
  }

  // ---- the result ----

  datatype Attached = Attached(route: HTTPRoute, hostnames: seq<string>, ref: ParentRef)

  datatype ListenerResult = ListenerResult(error: Option<SelectorError>, routes: seq<Attached>)

  datatype RouteError = RouteError(route: HTTPRoute, ref: ParentRef, reason: Reason)

  type ListenerResults = map<string, ListenerResult>

  /** What the pair adds to the result of one listener. */
  ghost function Added(gw: Gateway, l: Listener, p: Pair): seq<Attached> {
    if Attaches(gw, l, p.route, p.ref) then [Attached(p.route, Intersect(l.hostname, p.route.hostnames).1, p.ref)] else []
  }

  /** What the pair adds to the listener result called `name`: one entry per attaching listener of that name. */
  ghost function Attachments(gw: Gateway, ls: seq<Listener>, name: string, p: Pair): seq<Attached> {
    if ls == [] then []
    else
      var last := ls[|ls| - 1];
      Attachments(gw, ls[..|ls| - 1], name, p) + if last.name == name then Added(gw, last, p) else []
  }

  ghost function AllAttachments(gw: Gateway, ps: seq<Pair>, name: string): seq<Attached> {
    if ps == [] then []
    else AllAttachments(gw, ps[..|ps| - 1], name) + Attachments(gw, gw.listeners, name, ps[|ps| - 1])
  }

  ghost function RouteErrors(gw: Gateway, ps: seq<Pair>): seq<RouteError> {
    if ps == [] then []
    else
      var last := ps[|ps| - 1];
      RouteErrors(gw, ps[..|ps| - 1]) +
      match ErrorFor(gw, last.route, last.ref)
      case None => []
      case Some(reason) => [RouteError(last.route, last.ref, reason)]
  }

  function RoutesOf(results: ListenerResults, name: string): seq<Attached> {
    if name in results then results[name].routes else []
  }

  ghost predicate HasListener(ls: seq<Listener>, name: string) {
    exists i :: 0 <= i < |ls| && ls[i].name == name
  }

  ghost predicate HasBadSelector(gw: Gateway, ls: seq<Listener>, name: string) {
    exists i :: 0 <= i < |ls| && ls[i].name == name && BadSelector(ls[i])
  }

  /** Listener results exist for the listeners seen so far, with an error iff one of that name has a bad selector. */
  ghost predicate ResultsFor(gw: Gateway, ls: seq<Listener>, before: ListenerResults, results: ListenerResults) {
    && (forall name :: name in results <==> name in before || HasListener(ls, name))
    && (forall name <- results :: results[name].error.Some? <==>
          (name in before && before[name].error.Some?)
          || HasBadSelector(gw, ls, name))
  }

  method AttachToListener(gw: Gateway, l: Listener, p: Pair, before: ListenerResults)
    returns (results: ListenerResults, allowed: bool, selected: bool, attached: bool)
    ensures allowed <==> Allows(gw, l, p.route)
    ensures selected <==> Selects(gw, l, p.route, p.ref)
    ensures attached <==> Attaches(gw, l, p.route, p.ref)
    ensures results.Keys == before.Keys + {l.name}
    ensures forall name <- before :: name != l.name ==> results[name] == before[name]
    ensures results[l.name].error.Some? <==> (l.name in before && before[l.name].error.Some?) || BadSelector(l)
    ensures BadSelector(l) ==>
      results[l.name].error == Some(if l.allowedRoutes.value.from.value.selector.None? then SelectorMissing else SelectorInvalid)
    ensures RoutesOf(results, l.name) == RoutesOf(before, l.name)
      + if attached then [Attached(p.route, Intersect(l.hostname, p.route.hostnames).1, p.ref)] else []
  {
    AllowsIff(gw, l, p.route);
    hide Allows, BadSelector, Intersect;
    allowed, selected, attached := false, false, false;
    var lr := if l.name in before then before[l.name] else ListenerResult(None, []);
    results := before[l.name := lr];
    var allowedNs := AllowedNamespaces(gw, l);
    if allowedNs.Err? {
      results := results[l.name := lr.(error := Some(allowedNs.error))];
      return;
    }
    var httpAllowed := IsHttpRouteAllowed(AllowedKinds(l));
    if !httpAllowed {
      return;
    }
    if !NamespaceAllowed(allowedNs.value, p.route.namespace) {
      return;
    }
    allowed := true;
    if !ParentRefMatchListener(p.ref, l) {
      return;
    }
    selected := true;
    var ok, hostnames := HostnameIntersect(l.hostname, p.route.hostnames);
    if !ok {
      return;
    }
    attached := true;
    results := results[l.name := lr.(routes := lr.routes + [Attached(p.route, hostnames, p.ref)])];
  }

  /** The three flags of the loop, after the listeners `ls`. */
  ghost predicate FlagsFor(gw: Gateway, ls: seq<Listener>, p: Pair, allowed: bool, selected: bool, attached: bool) {
    && (allowed <==> exists i :: 0 <= i < |ls| && Allows(gw, ls[i], p.route))
    && (selected <==> exists i :: 0 <= i < |ls| && Selects(gw, ls[i], p.route, p.ref))
    && (attached <==> exists i :: 0 <= i < |ls| && Attaches(gw, ls[i], p.route, p.ref))
  }

  lemma FlagsStep(gw: Gateway, ls: seq<Listener>, i: nat, p: Pair, allowed: bool, selected: bool, attached: bool)
    requires i < |ls| && FlagsFor(gw, ls[..i], p, allowed, selected, attached)
    ensures FlagsFor(gw, ls[..i + 1], p, allowed || Allows(gw, ls[i], p.route),
                     selected || Selects(gw, ls[i], p.route, p.ref), attached || Attaches(gw, ls[i], p.route, p.ref))
  {
    hide Allows;
    hide Selects;
    hide Attaches;
    var now := ls[..i + 1];
    assert now[i] == ls[i] && forall j :: 0 <= j < i ==> now[j] == ls[..i][j];
  }

  /** The routes added by the pair, after the listeners `ls`. */
  ghost predicate RoutesFor(gw: Gateway, ls: seq<Listener>, p: Pair, before: ListenerResults, results: ListenerResults) {
    forall name :: RoutesOf(results, name) == RoutesOf(before, name) + Attachments(gw, ls, name, p)
  }

  lemma RoutesStep(gw: Gateway, ls: seq<Listener>, i: nat, p: Pair, before: ListenerResults, previous: ListenerResults, results: ListenerResults)
    requires i < |ls| && RoutesFor(gw, ls[..i], p, before, previous)
    requires results.Keys == previous.Keys + {ls[i].name}
    requires forall name <- previous :: name != ls[i].name ==> results[name] == previous[name]
    requires RoutesOf(results, ls[i].name) == RoutesOf(previous, ls[i].name) + Added(gw, ls[i], p)
    ensures RoutesFor(gw, ls[..i + 1], p, before, results)
  {
    hide Attachments, Added;
    forall name ensures RoutesOf(results, name) == RoutesOf(before, name) + Attachments(gw, ls[..i + 1], name, p) {
      AttachmentsSnoc(gw, ls, i, name, p);
      assert RoutesOf(previous, name) == RoutesOf(before, name) + Attachments(gw, ls[..i], name, p);
      if name != ls[i].name {
        assert RoutesOf(results, name) == RoutesOf(previous, name);
      } else {
        SeqAssociates(RoutesOf(before, name), Attachments(gw, ls[..i], name, p), Added(gw, ls[i], p));
      }
    }
  }

  lemma AttachmentsSnoc(gw: Gateway, ls: seq<Listener>, i: nat, name: string, p: Pair)
    requires i < |ls|
    ensures Attachments(gw, ls[..i + 1], name, p)
         == Attachments(gw, ls[..i], name, p) + if ls[i].name == name then Added(gw, ls[i], p) else []
  {
    hide Attaches, Intersect;
    assert ls[..i + 1][..i] == ls[..i];
  }

  /** The body of the loop over parentRefs: the three flags, then at most one error. */
  method AttachPair(gw: Gateway, p: Pair, before: ListenerResults) returns (results: ListenerResults, error: Option<Reason>)
    ensures error == ErrorFor(gw, p.route, p.ref)
    ensures ResultsFor(gw, gw.listeners, before, results)
    ensures RoutesFor(gw, gw.listeners, p, before, results)
  {
    hide Allows;
    hide Selects;
    hide Attaches;
    hide Intersect;
    hide BadSelector;
    hide ResultsFor;
    hide RoutesFor;
    var anyRoutesAllowed, anyListenerMatched, anyHostsMatch := false, false, false;
    var ls := gw.listeners;
    results := before;
    NothingYet(gw, p, before);
    assert ls[..0] == [];
    for i := 0 to |ls|
      invariant FlagsFor(gw, ls[..i], p, anyRoutesAllowed, anyListenerMatched, anyHostsMatch)
      invariant ResultsFor(gw, ls[..i], before, results)
      invariant RoutesFor(gw, ls[..i], p, before, results)
    {
      ghost var previous := results;
      var allowed, selected, attached;
      results, allowed, selected, attached := AttachToListener(gw, ls[i], p, results);
      FlagsStep(gw, ls, i, p, anyRoutesAllowed, anyListenerMatched, anyHostsMatch);
      ResultsStep(gw, ls, i, before, previous, results);
      RoutesStep(gw, ls, i, p, before, previous, results);
      anyRoutesAllowed := anyRoutesAllowed || allowed;
      anyListenerMatched := anyListenerMatched || selected;
      anyHostsMatch := anyHostsMatch || attached;
    }
    assert ls[..|ls|] == ls;
    if !anyRoutesAllowed {
      error := Some(NotAllowedByListeners);
    } else if !anyListenerMatched {
      error := Some(NoMatchingParent);
    } else if !anyHostsMatch {
      error := Some(NoMatchingListenerHostname);
    } else {
      error := None;
    }
  }

  lemma NothingYet(gw: Gateway, p: Pair, results: ListenerResults)
    ensures FlagsFor(gw, [], p, false, false, false)
    ensures ResultsFor(gw, [], results, results)
    ensures RoutesFor(gw, [], p, results, results)
  {
  }

  lemma ResultsStep(gw: Gateway, ls: seq<Listener>, i: nat, before: ListenerResults, previous: ListenerResults, results: ListenerResults)
    requires i < |ls| && ResultsFor(gw, ls[..i], before, previous)
    requires results.Keys == previous.Keys + {ls[i].name}
    requires forall name <- previous :: name != ls[i].name ==> results[name] == previous[name]
    requires results[ls[i].name].error.Some? <==>
      (ls[i].name in previous && previous[ls[i].name].error.Some?) || BadSelector(ls[i])
    ensures ResultsFor(gw, ls[..i + 1], before, results)
  {
    hide BadSelector;
    hide HasListener;
    hide HasBadSelector;
    forall name
      ensures HasListener(ls[..i + 1], name) <==> HasListener(ls[..i], name) || ls[i].name == name
      ensures HasBadSelector(gw, ls[..i + 1], name) <==>
        HasBadSelector(gw, ls[..i], name) || (ls[i].name == name && BadSelector(ls[i]))
    {
      ListenersSnoc(gw, ls, i, name);
    }
    forall name <- results
      ensures results[name].error.Some? <==> (name in before && before[name].error.Some?) || HasBadSelector(gw, ls[..i + 1], name)
    {
      if name in previous {
        assert previous[name].error.Some? <==> (name in before && before[name].error.Some?) || HasBadSelector(gw, ls[..i], name);
      } else {
        assert name == ls[i].name && name !in before;
        NoListenerNoSelector(gw, ls[..i], name);
      }
    }
  }

  lemma NoListenerNoSelector(gw: Gateway, ls: seq<Listener>, name: string)
    ensures !HasListener(ls, name) ==> !HasBadSelector(gw, ls, name)
  {
    hide BadSelector;
  }

  lemma ListenersSnoc(gw: Gateway, ls: seq<Listener>, i: nat, name: string)
    requires i < |ls|
    ensures HasListener(ls[..i + 1], name) <==> HasListener(ls[..i], name) || ls[i].name == name
    ensures HasBadSelector(gw, ls[..i + 1], name) <==>
      HasBadSelector(gw, ls[..i], name) || (ls[i].name == name && BadSelector(ls[i]))
  {
    hide BadSelector;
    var now, was := ls[..i + 1], ls[..i];
    assert now[i] == ls[i] && forall j :: 0 <= j < i ==> now[j] == was[j];
  }

  /** The results after the pairs `ps`. */
  ghost predicate Outcome(gw: Gateway, ps: seq<Pair>, results: ListenerResults, errors: seq<RouteError>) {
    && errors == RouteErrors(gw, ps)
    && (forall name :: RoutesOf(results, name) == AllAttachments(gw, ps, name))
    && (if ps == [] then results == map[] else ResultsFor(gw, gw.listeners, map[], results))
  }

  lemma OutcomeStep(gw: Gateway, ps: seq<Pair>, p: Pair, before: ListenerResults, results: ListenerResults,
                    errors: seq<RouteError>, error: Option<Reason>)
    requires Outcome(gw, ps, before, errors) && error == ErrorFor(gw, p.route, p.ref)
    requires ResultsFor(gw, gw.listeners, before, results) && RoutesFor(gw, gw.listeners, p, before, results)
    ensures Outcome(gw, ps + [p], results, errors + if error.None? then [] else [RouteError(p.route, p.ref, error.value)])
  {
    hide ErrorFor;
    hide Attachments;
    hide ResultsFor;
    assert (ps + [p])[..|ps|] == ps;
    ResultsAgain(gw, before, results);
    forall name ensures RoutesOf(results, name) == AllAttachments(gw, ps + [p], name) {
      assert RoutesOf(before, name) == AllAttachments(gw, ps, name);
    }
  }

  /** Each pair is attached to exactly the listeners that allow it, match it and share a hostname with it, or gets one
      error whose reason is the first stage nobody survives. */
  method GetRoutesForGateway(gw: Gateway, routes: seq<HTTPRoute>) returns (results: ListenerResults, errors: seq<RouteError>)
    ensures Outcome(gw, Pairs(gw, routes), results, errors)
  {
    hide Outcome;
    hide ErrorFor;
    hide ResultsFor;
    hide RoutesFor;
    hide RefsForGw;
    results, errors := map[], [];
    ghost var done: seq<Pair> := [];
    EmptyOutcome(gw);
    for i := 0 to |routes|
      invariant done == Pairs(gw, routes[..i]) && Outcome(gw, done, results, errors)
    {
      var refs := GetParentRefsForGw(gw, routes[i]);
      for j := 0 to |refs|
        invariant done == Pairs(gw, routes[..i]) + WithRoute(routes[i], refs[..j]) && Outcome(gw, done, results, errors)
      {
        ghost var before, p := results, Pair(routes[i], refs[j]);
        var error;
        results, error := AttachPair(gw, Pair(routes[i], refs[j]), results);
        OutcomeStep(gw, done, p, before, results, errors, error);
        errors := errors + if error.None? then [] else [RouteError(routes[i], refs[j], error.value)];
        done := done + [p];
        assert WithRoute(routes[i], refs[..j + 1]) == WithRoute(routes[i], refs[..j]) + [p];
      }
      assert refs[..|refs|] == refs;
      assert routes[..i + 1][..i] == routes[..i];
    }
    assert routes[..|routes|] == routes;
  }

  lemma EmptyOutcome(gw: Gateway)
    ensures Outcome(gw, [], map[], [])
  {
  }

  /** Processing another pair leaves the set of results and their errors as they were. */
  lemma ResultsAgain(gw: Gateway, before: ListenerResults, results: ListenerResults)
    requires ResultsFor(gw, gw.listeners, before, results)
    ensures before == map[] || ResultsFor(gw, gw.listeners, map[], before) ==> ResultsFor(gw, gw.listeners, map[], results)
  {
    hide BadSelector;
  }

  /** Attached or in error, never both and never neither. */
  lemma AttachedOrError(gw: Gateway, p: Pair)
    ensures ErrorFor(gw, p.route, p.ref).None? <==> exists name :: Attachments(gw, gw.listeners, name, p) != []
  {
    hide Attaches;
    hide Allows;
    if name :| Attachments(gw, gw.listeners, name, p) != [] {
      var i := AttachmentWitness(gw, gw.listeners, name, p);
      assert Attaches(gw, gw.listeners[i], p.route, p.ref);
      AttachesIsLastStage(gw, gw.listeners[i], p);
    }
    if ErrorFor(gw, p.route, p.ref).None? {
      var i :| 0 <= i < |gw.listeners| && Attaches(gw, gw.listeners[i], p.route, p.ref);
      AttachmentPresent(gw, gw.listeners, i, p);
    }
  }

  lemma AttachesIsLastStage(gw: Gateway, l: Listener, p: Pair)
    requires Attaches(gw, l, p.route, p.ref)
    ensures Selects(gw, l, p.route, p.ref) && Allows(gw, l, p.route)
  {
  }

  lemma {:induction false} AttachmentWitness(gw: Gateway, ls: seq<Listener>, name: string, p: Pair) returns (i: nat)
    requires Attachments(gw, ls, name, p) != []
    ensures i < |ls| && ls[i].name == name && Attaches(gw, ls[i], p.route, p.ref)
  {
    hide Attaches;
    i := |ls| - 1;
    if !(ls[i].name == name && Attaches(gw, ls[i], p.route, p.ref)) {
      i := AttachmentWitness(gw, ls[..|ls| - 1], name, p);
    }
  }

  lemma {:induction false} AttachmentPresent(gw: Gateway, ls: seq<Listener>, i: nat, p: Pair)
    requires i < |ls| && Attaches(gw, ls[i], p.route, p.ref)
    ensures Attachments(gw, ls, ls[i].name, p) != []
  {
    hide Attaches;
    if i < |ls| - 1 {
      AttachmentPresent(gw, ls[..|ls| - 1], i, p);
    }
  }

  // ---- the lists, by position ----

  lemma {:induction false} RefsForGwIs(gw: Gateway, route: HTTPRoute, refs: seq<ParentRef>)
    ensures RefsForGw(gw, route, refs) == Filter((ref: ParentRef) => RefersTo(gw, route, ref), refs)
  {
    if refs != [] {
      RefsForGwIs(gw, route, refs[..|refs| - 1]);
    }
  }

  /** The pairs of one route: its references to the gateway, in order. */
  lemma PairsOfRoute(gw: Gateway, route: HTTPRoute)
    ensures Pairs(gw, [route]) == Mapped((ref: ParentRef) => Pair(route, ref), Filter((ref: ParentRef) => RefersTo(gw, route, ref), route.parentRefs))
  {
    RefsForGwIs(gw, route, route.parentRefs);
    assert [route][..0] == [];
  }

  /** The pairs of several routes, in the order of the routes. */
  lemma {:induction false} PairsConcat(gw: Gateway, a: seq<HTTPRoute>, b: seq<HTTPRoute>)
    ensures Pairs(gw, a + b) == Pairs(gw, a) + Pairs(gw, b)
  {
    if b == [] {
      assert a + b == a;
    } else {
      var n := |b| - 1;
      PairsConcat(gw, a, b[..n]);
      assert (a + b)[..|a + b| - 1] == a + b[..n];
      SeqAssociates(Pairs(gw, a), Pairs(gw, b[..n]), WithRoute(b[n], RefsForGw(gw, b[n], b[n].parentRefs)));
    }
  }

  /** What a pair adds under a name: one entry per listener of that name it attaches to, in order, with the shared hostnames. */
  lemma {:induction false} AttachmentsAre(gw: Gateway, ls: seq<Listener>, name: string, p: Pair)
    ensures Attachments(gw, ls, name, p)
         == Mapped((l: Listener) => Attached(p.route, Intersect(l.hostname, p.route.hostnames).1, p.ref),
                   Filter((l: Listener) => l.name == name && Attaches(gw, l, p.route, p.ref), ls))
  {
    hide Attaches, Intersect;
    if ls != [] {
      AttachmentsAre(gw, ls[..|ls| - 1], name, p);
    }
  }

  lemma {:induction false} AllAttachmentsConcat(gw: Gateway, a: seq<Pair>, b: seq<Pair>, name: string)
    ensures AllAttachments(gw, a + b, name) == AllAttachments(gw, a, name) + AllAttachments(gw, b, name)
  {
    hide Attachments;
    if b == [] {
      assert a + b == a;
    } else {
      var n := |b| - 1;
      AllAttachmentsConcat(gw, a, b[..n], name);
      assert (a + b)[..|a + b| - 1] == a + b[..n];
      SeqAssociates(AllAttachments(gw, a, name), AllAttachments(gw, b[..n], name), Attachments(gw, gw.listeners, name, b[n]));
    }
  }

  lemma AttachmentsOfPair(gw: Gateway, p: Pair, name: string)
    ensures AllAttachments(gw, [p], name) == Attachments(gw, gw.listeners, name, p)
  {
    assert [p][..0] == [];
  }

  /** One error per pair that has one, in order. */
  lemma {:induction false} RouteErrorsAre(gw: Gateway, ps: seq<Pair>)
    ensures var failing := Filter((p: Pair) => ErrorFor(gw, p.route, p.ref).Some?, ps);
      && |RouteErrors(gw, ps)| == |failing|
      && forall i :: 0 <= i < |failing| ==>
           && RouteErrors(gw, ps)[i].route == failing[i].route && RouteErrors(gw, ps)[i].ref == failing[i].ref
           && ErrorFor(gw, failing[i].route, failing[i].ref) == Some(RouteErrors(gw, ps)[i].reason)
  {
    hide ErrorFor;
    if ps != [] {
      RouteErrorsAre(gw, ps[..|ps| - 1]);
    }
  }

  /** The reason is the earliest stage at which no listener is left. */
  lemma ReasonsAre(gw: Gateway, route: HTTPRoute, ref: ParentRef)
    ensures var ls, r := gw.listeners, ErrorFor(gw, route, ref);
      && (r == Some(NotAllowedByListeners) <==> forall i :: 0 <= i < |ls| ==> !Allows(gw, ls[i], route))
      && (r == Some(NoMatchingParent) <==>
            && (exists i :: 0 <= i < |ls| && Allows(gw, ls[i], route))
            && forall i :: 0 <= i < |ls| ==> !(Allows(gw, ls[i], route) && ParentRefMatchListener(ref, ls[i])))
      && (r == Some(NoMatchingListenerHostname) <==>
            && (exists i :: 0 <= i < |ls| && Selects(gw, ls[i], route, ref))
            && forall i :: 0 <= i < |ls| ==> !(Selects(gw, ls[i], route, ref) && Intersect(ls[i].hostname, route.hostnames).0))
  {
    hide Allows, ParentRefMatchListener, Intersect;
    var ls := gw.listeners;
    if i :| 0 <= i < |ls| && Selects(gw, ls[i], route, ref) {
      assert Allows(gw, ls[i], route);
    }
    assert forall i :: 0 <= i < |ls| ==> (Selects(gw, ls[i], route, ref) <==> Allows(gw, ls[i], route) && ParentRefMatchListener(ref, ls[i]));
    assert forall i :: 0 <= i < |ls| ==> (Attaches(gw, ls[i], route, ref) <==> Selects(gw, ls[i], route, ref) && Intersect(ls[i].hostname, route.hostnames).0);
  }
}
