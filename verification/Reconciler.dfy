/** One reconciliation round (projects/gateway/pkg/reconciler/proxy_reconciler.go): strip what was rejected from the
    desired proxy, then graft the stored version of every rejected item back in. */
module Reconciler {
  import opened Common
  import opened Sources
  import opened StableSort
  import opened ProxyModel

  // ---- stripping ----

  function KeepAccepted(reports: Reports, vhs: seq<VirtualHost>): seq<VirtualHost> {
    Sort(Pick(reports, vhs, true))
  }

  function NamesOf<T>(s: seq<Object<T>>): seq<string> {
    seq(|s|, i requires 0 <= i < |s| => s[i].name)
  }

  function StripMatched(reports: Reports, m: MatchedListener): MatchedListener {
    if m.MatchedHttp? then m.(http := m.http.(virtualHosts := KeepAccepted(reports, m.http.virtualHosts))) else m
  }

  function StripChain(reports: Reports, resources: map<string, VirtualHost>, c: FilterChain): FilterChain {
    c.(virtualHostRefs := NamesOf(KeepAccepted(reports, ResolveRefs(resources, c.virtualHostRefs))))
  }

  function StripType(reports: Reports, spec: ListenerType): ListenerType {
    match spec
    case Http(http) => Http(http.(virtualHosts := KeepAccepted(reports, http.virtualHosts)))
    case Hybrid(ms) => Hybrid(seq(|ms|, i requires 0 <= i < |ms| => StripMatched(reports, ms[i])))
    case Aggregate(resources, cs) =>
      Aggregate(resources, seq(|cs|, i requires 0 <= i < |cs| => StripChain(reports, resources, cs[i])))
    case Tcp(_) => spec
  }

  function StripListeners(reports: Reports, ls: seq<Listener>): seq<Listener> {
    seq(|ls|, i requires 0 <= i < |ls| => ls[i].(spec := StripType(reports, ls[i].spec)))
  }

  function Strip(reports: Reports, ls: seq<Listener>): seq<Listener> {
    Sort(Pick(reports, StripListeners(reports, ls), true))
  }

  ghost predicate MalformedType(spec: ListenerType) {
    match spec
    case Http(http) => AnyMalformed(http.virtualHosts)
    case Hybrid(ms) => exists i :: 0 <= i < |ms| && AnyMalformed(MatchedVirtualHosts(ms[i]))
    case Aggregate(resources, cs) =>
      exists i :: 0 <= i < |cs| && AnyMalformed(ResolveRefs(resources, cs[i].virtualHostRefs))
    case Tcp(_) => false
  }

  ghost predicate MalformedProxy(ls: seq<Listener>) {
    AnyMalformed(ls) || exists i :: 0 <= i < |ls| && MalformedType(ls[i].spec)
  }

  class Proxy {
    var listeners: seq<Listener>

    constructor (initial: seq<Listener>)
      ensures listeners == initial
    {
      listeners := initial;
    }
  }

  method ValidHostsFromHttpListener(reports: Reports, vhs: seq<VirtualHost>) returns (r: Result<seq<VirtualHost>, MetadataError>)
    ensures r.Err? <==> AnyMalformed(vhs)
    ensures r.Ok? ==> r.value == KeepAccepted(reports, vhs)
  {
    r := CollectByVerdict(reports, vhs, true);
    if r.Ok? {
      r := Ok(Sort(r.value));
    }
  }

  method StripHybrid(reports: Reports, ms: seq<MatchedListener>) returns (r: Result<seq<MatchedListener>, MetadataError>)
    ensures r.Err? <==> MalformedType(Hybrid(ms))
    ensures r.Ok? ==> Hybrid(r.value) == StripType(reports, Hybrid(ms))
  {
    var stripped := ms;
    for i := 0 to |ms|
      invariant |stripped| == |ms|
      invariant forall j :: 0 <= j < i ==> !AnyMalformed(MatchedVirtualHosts(ms[j])) && stripped[j] == StripMatched(reports, ms[j])
      invariant forall j :: i <= j < |ms| ==> stripped[j] == ms[j]
    {
      if ms[i].MatchedHttp? {
        var valid := ValidHostsFromHttpListener(reports, ms[i].http.virtualHosts);
        if valid.Err? {
          return Err(valid.error);
        }
        stripped := stripped[i := ms[i].(http := ms[i].http.(virtualHosts := valid.value))];
      }
    }
    return Ok(stripped);
  }

  method StripAggregate(reports: Reports, resources: map<string, VirtualHost>, cs: seq<FilterChain>)
    returns (r: Result<seq<FilterChain>, MetadataError>)
    ensures r.Err? <==> MalformedType(Aggregate(resources, cs))
    ensures r.Ok? ==> Aggregate(resources, r.value) == StripType(reports, Aggregate(resources, cs))
  {
    var stripped := cs;
    for i := 0 to |cs|
      invariant |stripped| == |cs|
      invariant forall j :: 0 <= j < i ==>
        && !AnyMalformed(ResolveRefs(resources, cs[j].virtualHostRefs))
        && stripped[j] == StripChain(reports, resources, cs[j])
      invariant forall j :: i <= j < |cs| ==> stripped[j] == cs[j]
    {
      var valid := ValidHostsFromHttpListener(reports, ResolveRefs(resources, cs[i].virtualHostRefs));
      if valid.Err? {
        return Err(valid.error);
      }
      stripped := stripped[i := cs[i].(virtualHostRefs := NamesOf(valid.value))];
    }
    return Ok(stripped);
  }

  method StripListener(reports: Reports, l: Listener) returns (r: Result<Listener, MetadataError>)
    ensures r.Err? <==> MalformedType(l.spec)
    ensures r.Ok? ==> r.value == l.(spec := StripType(reports, l.spec))
  {
    match l.spec {
      case Http(http) =>
        var valid := ValidHostsFromHttpListener(reports, http.virtualHosts);
        if valid.Err? {
          return Err(valid.error);
        }
        return Ok(l.(spec := Http(http.(virtualHosts := valid.value))));
      case Hybrid(ms) =>
        var matched := StripHybrid(reports, ms);
        if matched.Err? {
          return Err(matched.error);
        }
        return Ok(l.(spec := Hybrid(matched.value)));
      case Aggregate(resources, cs) =>
        var chains := StripAggregate(reports, resources, cs);
        if chains.Err? {
          return Err(chains.error);
        }
        return Ok(l.(spec := Aggregate(resources, chains.value)));
      case Tcp(_) =>
        return Ok(l);
    }
  }

  /** Works on a clone, so the generated proxy keeps its listeners. The listeners are screened after their virtual
      hosts have been overwritten in place: in Go the valid listeners are pointers and see those writes. */
  method StripInvalidListenersAndVirtualHosts(reports: Reports, proxy: Proxy) returns (r: Result<Proxy, MetadataError>)
    ensures r.Err? <==> MalformedProxy(proxy.listeners)
    ensures r.Ok? ==> fresh(r.value) && r.value.listeners == Strip(reports, proxy.listeners)
  {
    var clone := new Proxy(proxy.listeners);
    var n := |clone.listeners|;
    for i := 0 to n
      invariant fresh(clone) && |clone.listeners| == n == |proxy.listeners|
      invariant forall j :: 0 <= j < i ==> !MalformedType(proxy.listeners[j].spec)
      invariant forall j :: 0 <= j < i ==>
        clone.listeners[j] == proxy.listeners[j].(spec := StripType(reports, proxy.listeners[j].spec))
      invariant forall j :: i <= j < n ==> clone.listeners[j] == proxy.listeners[j]
    {
      var stripped := StripListener(reports, clone.listeners[i]);
      if stripped.Err? {
        return Err(stripped.error);
      }
      clone.listeners := clone.listeners[i := stripped.value];
    }
    assert clone.listeners == StripListeners(reports, proxy.listeners);
    assert forall j :: 0 <= j < n ==> clone.listeners[j].metadata == proxy.listeners[j].metadata;
    var valid := CollectByVerdict(reports, clone.listeners, true);
    if valid.Err? {
      return Err(valid.error);
    }
    clone.listeners := Sort(valid.value);
    return Ok(clone);
  }

  // ---- transition: grafting the last known good version ----

  function Graft(reports: Reports, original: seq<VirtualHost>, desired: seq<VirtualHost>): seq<VirtualHost> {
    Sort(desired + Pick(reports, original, false))
  }

  /** The virtual hosts stored under `matcher`: the last matched listener with an equal matcher decides. */
  function StoredHosts(ms: seq<MatchedListener>, matcher: Matcher): seq<VirtualHost> {
    if ms == [] then []
    else if ms[|ms| - 1].matcher == matcher then MatchedVirtualHosts(ms[|ms| - 1])
    else StoredHosts(ms[..|ms| - 1], matcher)
  }

  function GraftMatched(reports: Reports, original: seq<MatchedListener>, m: MatchedListener): MatchedListener {
    if m.MatchedHttp?
    then m.(http := m.http.(virtualHosts := Graft(reports, StoredHosts(original, m.matcher), m.http.virtualHosts)))
    else m
  }

  function GraftType(reports: Reports, original: ListenerType, desired: ListenerType): ListenerType {
    match desired
    case Http(http) => Http(http.(virtualHosts := Graft(reports, HttpVirtualHosts(original), http.virtualHosts)))
    case Hybrid(ms) => Hybrid(seq(|ms|, i requires 0 <= i < |ms| => GraftMatched(reports, MatchedOf(original), ms[i])))
    case Aggregate(_, _) => desired
    case Tcp(_) => desired
  }

  function GraftListener(reports: Reports, original: seq<Listener>, l: Listener): Listener {
    match Lookup(original, l.name)
    case None => l
    case Some(o) => l.(spec := GraftType(reports, o.spec, l.spec))
  }

  function GraftListeners(reports: Reports, original: seq<Listener>, desired: seq<Listener>): seq<Listener> {
    seq(|desired|, i requires 0 <= i < |desired| => GraftListener(reports, original, desired[i]))
  }

  function Transition(reports: Reports, original: seq<Listener>, desired: seq<Listener>): seq<Listener> {
    Sort(GraftListeners(reports, original, desired) + Pick(reports, original, false))
  }

  ghost predicate MalformedGraft(original: ListenerType, desired: ListenerType) {
    match desired
    case Http(_) => AnyMalformed(HttpVirtualHosts(original))
    case Hybrid(ms) =>
      exists i :: 0 <= i < |ms| && ms[i].MatchedHttp? && AnyMalformed(StoredHosts(MatchedOf(original), ms[i].matcher))
    case Aggregate(_, _) => false
    case Tcp(_) => false
  }

  ghost predicate MalformedListenerGraft(original: seq<Listener>, l: Listener) {
    Lookup(original, l.name).Some? && MalformedGraft(Lookup(original, l.name).value.spec, l.spec)
  }

  ghost predicate MalformedTransition(original: seq<Listener>, desired: seq<Listener>) {
    AnyMalformed(original) || exists i :: 0 <= i < |desired| && MalformedListenerGraft(original, desired[i])
  }

  method CopyRejectedVirtualHosts(reports: Reports, original: seq<VirtualHost>, desired: seq<VirtualHost>)
    returns (r: Result<seq<VirtualHost>, MetadataError>)
    ensures r.Err? <==> AnyMalformed(original)
    ensures r.Ok? ==> r.value == Graft(reports, original, desired)
  {
    var rejected := CollectByVerdict(reports, original, false);
    if rejected.Err? {
      return Err(rejected.error);
    }
    return Ok(Sort(desired + rejected.value));
  }

  method FindStoredHosts(ms: seq<MatchedListener>, matcher: Matcher) returns (vhs: seq<VirtualHost>)
    ensures vhs == StoredHosts(ms, matcher)
  {
    vhs := [];
    for i := 0 to |ms|
      invariant vhs == StoredHosts(ms[..i], matcher)
    {
      assert ms[..i + 1][..i] == ms[..i];
      if ms[i].matcher == matcher {
        vhs := MatchedVirtualHosts(ms[i]);
      }
    }
    assert ms[..|ms|] == ms;
  }

  method GraftHybrid(reports: Reports, original: ListenerType, ms: seq<MatchedListener>)
    returns (r: Result<seq<MatchedListener>, MetadataError>)
    ensures r.Err? <==> MalformedGraft(original, Hybrid(ms))
    ensures r.Ok? ==> Hybrid(r.value) == GraftType(reports, original, Hybrid(ms))
  {
    var stored := MatchedOf(original);
    var grafted := ms;
    for i := 0 to |ms|
      invariant |grafted| == |ms|
      invariant forall j :: 0 <= j < i ==> grafted[j] == GraftMatched(reports, stored, ms[j])
      invariant forall j :: 0 <= j < i && ms[j].MatchedHttp? ==> !AnyMalformed(StoredHosts(stored, ms[j].matcher))
      invariant forall j :: i <= j < |ms| ==> grafted[j] == ms[j]
    {
      if ms[i].MatchedHttp? {
        var storedHosts := FindStoredHosts(stored, ms[i].matcher);
        var vhs := CopyRejectedVirtualHosts(reports, storedHosts, ms[i].http.virtualHosts);
        if vhs.Err? {
          return Err(vhs.error);
        }
        grafted := grafted[i := ms[i].(http := ms[i].http.(virtualHosts := vhs.value))];
      }
    }
    return Ok(grafted);
  }

  method FindListener(ls: seq<Listener>, name: string) returns (r: Option<Listener>)
    ensures r == Lookup(ls, name)
  {
    for i := 0 to |ls|
      invariant Lookup(ls, name) == Lookup(ls[i..], name)
    {
      if ls[i].name == name {
        return Some(ls[i]);
      }
      assert ls[i..][1..] == ls[i + 1..];
    }
    return None;
  }

  method GraftOne(reports: Reports, original: seq<Listener>, l: Listener) returns (r: Result<Listener, MetadataError>)
    ensures r.Err? <==> MalformedListenerGraft(original, l)
    ensures r.Ok? ==> r.value == GraftListener(reports, original, l)
  {
    var found := FindListener(original, l.name);
    if found.None? {
      return Ok(l);
    }
    var o := found.value;
    match l.spec {
      case Http(http) =>
        var vhs := CopyRejectedVirtualHosts(reports, HttpVirtualHosts(o.spec), http.virtualHosts);
        if vhs.Err? {
          return Err(vhs.error);
        }
        return Ok(l.(spec := Http(http.(virtualHosts := vhs.value))));
      case Hybrid(ms) =>
        var matched := GraftHybrid(reports, o.spec, ms);
        if matched.Err? {
          return Err(matched.error);
        }
        return Ok(l.(spec := Hybrid(matched.value)));
      case Aggregate(_, _) => return Ok(l);
      case Tcp(_) => return Ok(l);
    }
  }

  /** Overwrites `desired` in place; when it fails, `desired` is dropped and nothing is written. */
  method TransitionProxy(reports: Reports, original: Proxy, desired: Proxy) returns (r: Option<MetadataError>)
    requires original != desired
    modifies desired
    ensures r.Some? <==> MalformedTransition(original.listeners, old(desired.listeners))
    ensures r.None? ==> desired.listeners == Transition(reports, original.listeners, old(desired.listeners))
  {
    ghost var before := desired.listeners;
    var n := |desired.listeners|;
    for i := 0 to n
      invariant |desired.listeners| == n == |before|
      invariant forall j :: 0 <= j < i ==> desired.listeners[j] == GraftListener(reports, original.listeners, before[j])
      invariant forall j :: 0 <= j < i ==> !MalformedListenerGraft(original.listeners, before[j])
      invariant forall j :: i <= j < n ==> desired.listeners[j] == before[j]
    {
      var grafted := GraftOne(reports, original.listeners, desired.listeners[i]);
      if grafted.Err? {
        return Some(grafted.error);
      }
      desired.listeners := desired.listeners[i := grafted.value];
    }
    assert desired.listeners == GraftListeners(reports, original.listeners, before);
    var rejected := CollectByVerdict(reports, original.listeners, false);
    if rejected.Err? {
      return Some(rejected.error);
    }
    desired.listeners := Sort(desired.listeners + rejected.value);
    return None;
  }
}
