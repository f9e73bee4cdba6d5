/** A full round against the store, and what validation errors do to the proxy that gets written. */
module ProxyReconciler {
  import opened Common
  import opened Sources
  import opened StableSort
  import opened ProxyModel
  import opened Reporting
  import opened ValidationBlame
  import opened Reconciler
  import opened LastKnownGood

  /** The answer of the validation service: absent, an error, or a list of proxy reports. */
  datatype Validation = NotConfigured | CallFailed | Response(proxyReports: seq<seq<ListenerReport>>)

  ghost predicate Validated(rc: RouteConfigName, reports: Reports, ls: seq<Listener>, v: Validation) {
    match v
    case NotConfigured => true
    case CallFailed => false
    case Response(rs) => |rs| == 1 && ProxyChargeable(reports, rc, ls, rs[0])
  }

  ghost function ReportsAfter(rc: RouteConfigName, reports: Reports, ls: seq<Listener>, v: Validation): Reports
    requires Validated(rc, reports, ls, v)
  {
    if v.NotConfigured? then reports else ApplyAll(reports, Findings(rc, ls, v.proxyReports[0]))
  }

  class ProxyStore {
    var stored: Option<seq<Listener>>

    constructor ()
      ensures stored == None
    {
      stored := None;
    }

    /** `ReconcileProxies` for one proxy over a store that always writes: on any error the store is untouched. */
    method ReconcileProxy(rc: RouteConfigName, proxy: Proxy, resourceReports: ResourceReports, v: Validation) returns (ok: bool)
      modifies this, resourceReports
      ensures ok ==> Validated(rc, old(resourceReports.reports), proxy.listeners, v) && !MalformedProxy(proxy.listeners)
      ensures ok ==> resourceReports.reports == ReportsAfter(rc, old(resourceReports.reports), proxy.listeners, v)
      ensures ok ==> stored == Some(Reconcile(resourceReports.reports, old(stored), proxy.listeners))
      ensures ok && old(stored).Some? ==> !MalformedTransition(old(stored).value, Strip(resourceReports.reports, proxy.listeners))
      ensures v.CallFailed? || (v.Response? && |v.proxyReports| != 1) ==> !ok
      ensures v.NotConfigured? ==> resourceReports.reports == old(resourceReports.reports)
      ensures !ok ==> stored == old(stored)
      ensures !ok ==>
        || !Validated(rc, old(resourceReports.reports), proxy.listeners, v)
        || MalformedProxy(proxy.listeners)
        || (stored.Some? && MalformedTransition(stored.value, Strip(resourceReports.reports, proxy.listeners)))
    {
      match v {
        case NotConfigured =>
        case CallFailed => return false;
        case Response(proxyReports) =>
          if |proxyReports| != 1 {
            return false;
          }
          var err := resourceReports.AddProxyValidationResult(rc, proxy.listeners, proxyReports[0]);
          if err.Some? {
            return false;
          }
      }
      var stripped := StripInvalidListenersAndVirtualHosts(resourceReports.reports, proxy);
      if stripped.Err? {
        return false;
      }
      var desired := stripped.value;
      if stored.Some? {
        var original := new Proxy(stored.value);
        var err := TransitionProxy(resourceReports.reports, original, desired);
        if err.Some? {
          return false;
        }
      }
      stored := Some(desired.listeners);
      return true;
    }
  }

  // ---- what stripping removes ----

  ghost predicate FreeHosts(key: SourceKey, vhs: seq<VirtualHost>) {
    forall i :: 0 <= i < |vhs| ==> key !in SourceKeys(vhs[i].metadata)
  }

  /** Neither the listener nor any virtual host it serves was generated from `key`. */
  ghost predicate Free(key: SourceKey, l: Listener) {
    && key !in SourceKeys(l.metadata)
    && FreeHosts(key, HttpVirtualHosts(l.spec))
    && (forall i :: 0 <= i < |MatchedOf(l.spec)| ==> FreeHosts(key, MatchedVirtualHosts(MatchedOf(l.spec)[i])))
    && (forall i :: 0 <= i < |ChainsOf(l)| ==> FreeHosts(key, ResolveRefs(ResourcesOf(l), ChainsOf(l)[i].virtualHostRefs)))
  }

  /** Aggregate resources are keyed by virtual host name and no reference dangles. */
  ghost predicate WellKeyed(l: Listener) {
    && (forall name <- ResourcesOf(l) :: ResourcesOf(l)[name].name == name)
    && forall i :: 0 <= i < |ChainsOf(l)| ==> forall ref <- ChainsOf(l)[i].virtualHostRefs :: ref in ResourcesOf(l)
  }

  lemma KeptAreFree(reports: Reports, vhs: seq<VirtualHost>, key: SourceKey)
    requires Errored(reports, key)
    ensures FreeHosts(key, KeepAccepted(reports, vhs))
  {
    var picked := Pick(reports, vhs, true);
    SortMembers(picked);
    PickMembers(reports, vhs, true);
    forall i | 0 <= i < |Sort(picked)| ensures key !in SourceKeys(Sort(picked)[i].metadata) {
      var k :| 0 <= k < |picked| && picked[k] == Sort(picked)[i];
    }
  }

  /** The references left in a chain are exactly those to accepted virtual hosts. */
  lemma ChainKeepsAccepted(reports: Reports, resources: map<string, VirtualHost>, c: FilterChain)
    requires forall name <- resources :: resources[name].name == name
    requires forall ref <- c.virtualHostRefs :: ref in resources
    ensures forall ref :: ref in StripChain(reports, resources, c).virtualHostRefs
              <==> ref in c.virtualHostRefs && Accepted(reports, resources[ref].metadata)
    ensures forall i :: 0 <= i < |StripChain(reports, resources, c).virtualHostRefs| ==>
              StripChain(reports, resources, c).virtualHostRefs[i] in resources
  {
    var vhs := ResolveRefs(resources, c.virtualHostRefs);
    var kept := KeepAccepted(reports, vhs);
    var refs := NamesOf(kept);
    SortMembers(Pick(reports, vhs, true));
    PickMembers(reports, vhs, true);
    forall i | 0 <= i < |refs| ensures refs[i] in c.virtualHostRefs && resources[refs[i]] == kept[i] {
      assert kept[i] in Pick(reports, vhs, true);
      var k :| 0 <= k < |vhs| && vhs[k] == kept[i];
      assert c.virtualHostRefs[k] in c.virtualHostRefs;
    }
    forall ref | ref in c.virtualHostRefs && Accepted(reports, resources[ref].metadata) ensures ref in refs {
      var k :| 0 <= k < |c.virtualHostRefs| && c.virtualHostRefs[k] == ref;
      assert vhs[k] in vhs && vhs[k] in kept;
      var i :| 0 <= i < |kept| && kept[i] == vhs[k];
      assert refs[i] == ref;
    }
  }

  lemma StripTypeIsFree(reports: Reports, l: Listener, key: SourceKey)
    requires Errored(reports, key) && key !in SourceKeys(l.metadata) && WellKeyed(l)
    ensures Free(key, l.(spec := StripType(reports, l.spec)))
  {
    match l.spec {
      case Http(http) => KeptAreFree(reports, http.virtualHosts, key);
      case Hybrid(ms) =>
        forall i | 0 <= i < |ms| ensures FreeHosts(key, MatchedVirtualHosts(StripMatched(reports, ms[i]))) {
          KeptAreFree(reports, MatchedVirtualHosts(ms[i]), key);
        }
      case Aggregate(resources, cs) =>
        forall i | 0 <= i < |cs|
          ensures FreeHosts(key, ResolveRefs(resources, StripChain(reports, resources, cs[i]).virtualHostRefs))
        {
          assert ChainsOf(l)[i] == cs[i] && ResourcesOf(l) == resources;
          ChainKeepsAccepted(reports, resources, cs[i]);
        }
      case Tcp(_) =>
    }
  }

  lemma StripIsFree(reports: Reports, ls: seq<Listener>, key: SourceKey)
    requires Errored(reports, key) && forall i :: 0 <= i < |ls| ==> WellKeyed(ls[i])
    ensures forall i :: 0 <= i < |Strip(reports, ls)| ==> Free(key, Strip(reports, ls)[i])
  {
    var all := StripListeners(reports, ls);
    var picked := Pick(reports, all, true);
    SortMembers(picked);
    PickMembers(reports, all, true);
    forall i | 0 <= i < |Sort(picked)| ensures Free(key, Sort(picked)[i]) {
      var k :| 0 <= k < |picked| && picked[k] == Sort(picked)[i];
      var j :| 0 <= j < |all| && all[j] == picked[k];
      StripTypeIsFree(reports, ls[j], key);
    }
  }

  /** An error anywhere on an item takes the item, and everything that shares one of its sources, out of the
      stripped proxy. */
  lemma ErrorsStripEverySharer(rc: RouteConfigName, reports: Reports, ls: seq<Listener>, rs: seq<ListenerReport>,
                               i: nat, loc: Location, meta: Metadata, e: string, key: SourceKey)
    requires ProxyChargeable(reports, rc, ls, rs)
    requires i < |ls| && SaysAt(rc, ls[i], rs[i], loc, meta, AnError, e) && key in SourceKeys(meta)
    requires forall j :: 0 <= j < |ls| ==> WellKeyed(ls[j])
    ensures var stripped := Strip(ApplyAll(reports, Findings(rc, ls, rs)), ls);
      forall j :: 0 <= j < |stripped| ==> Free(key, stripped[j])
  {
    hide SaysAt, Findings, Strip;
    SaidIsChargeable(rc, reports, ls, rs, i, loc, meta, AnError, e, key);
    ValidationIsExact(rc, reports, ls, rs, key, AnError, e);
    assert SaidOf(rc, ls, rs, key, AnError, e);
    StripIsFree(ApplyAll(reports, Findings(rc, ls, rs)), ls, key);
  }
}
