/** What reconciliation does not keep (projects/gateway/pkg/reconciler/proxy_reconciler.go): virtual hosts under a repeated
    matcher, and distinct names when sources change. */
module ReconcileLimits {
  import opened Common
  import opened Sources
  import opened StableSort
  import opened ProxyModel
  import opened Reconciler
  import opened LastKnownGood

  // ---- rejected virtual hosts under one matcher ----

  /** `h` is rejected and stored by the k-th matched listener, under `matcher`. */
  ghost predicate StoredRejected(reports: Reports, ms: seq<MatchedListener>, matcher: Matcher, k: int, h: VirtualHost) {
    0 <= k < |ms| && ms[k].matcher == matcher && h in MatchedVirtualHosts(ms[k]) && !Accepted(reports, h.metadata)
  }

  lemma GraftedMembers(reports: Reports, original: seq<VirtualHost>, desired: seq<VirtualHost>, h: VirtualHost)
    requires !Accepted(reports, h.metadata)
    ensures h in Graft(reports, original, KeepAccepted(reports, desired)) <==> h in original
  {
    hide Pick, Accepted, Sort;
    PickMembers(reports, desired, true);
    PickMembers(reports, original, false);
    SortMembers(Pick(reports, desired, true));
    SortMembers(KeepAccepted(reports, desired) + Pick(reports, original, false));
  }

  /** Every rejected virtual host of `ms` under `matcher` is in `hosts`. */
  ghost predicate KeepsRejected(reports: Reports, ms: seq<MatchedListener>, matcher: Matcher, hosts: seq<VirtualHost>) {
    forall k, h :: StoredRejected(reports, ms, matcher, k, h) ==> h in hosts
  }

  /** The last matched listener with the matcher has every rejected virtual host stored under it. */
  ghost predicate LastHasAllRejected(reports: Reports, ms: seq<MatchedListener>, matcher: Matcher) {
    forall l :: IsLastWith(ms, matcher, l) ==> KeepsRejected(reports, ms, matcher, MatchedVirtualHosts(ms[l]))
  }

  /** An accepted hybrid listener keeps every rejected virtual host stored under the matcher exactly when the last stored
      matched listener with it has them all. */
  lemma RejectedHostsKeptIff(reports: Reports, stored: seq<Listener>, d: Listener, i: nat)
    requires d.spec.Hybrid? && i < |d.spec.matched| && d.spec.matched[i].MatchedHttp?
    ensures var ms, m, r := StoredMatched(Lookup(stored, d.name)), d.spec.matched[i], Rebuild(reports, stored, d);
      && r.spec.Hybrid? && |r.spec.matched| == |d.spec.matched|
      && (KeepsRejected(reports, ms, m.matcher, MatchedVirtualHosts(r.spec.matched[i])) <==> LastHasAllRejected(reports, ms, m.matcher))
  {
    hide Graft, KeepAccepted, Accepted, Rebuild, Lookup;
    var ms, m, r := StoredMatched(Lookup(stored, d.name)), d.spec.matched[i], Rebuild(reports, stored, d);
    RebuiltMatchedIs(reports, stored, d, i);
    var hosts := MatchedVirtualHosts(r.spec.matched[i]);
    forall k, h | StoredRejected(reports, ms, m.matcher, k, h)
      ensures h in hosts <==> h in StoredHosts(ms, m.matcher)
    {
      GraftedMembers(reports, StoredHosts(ms, m.matcher), m.http.virtualHosts, h);
    }
    forall l | IsLastWith(ms, m.matcher, l) ensures StoredHosts(ms, m.matcher) == MatchedVirtualHosts(ms[l]) {
      StoredHostsAt(ms, m.matcher, l);
    }
    forall k, h | StoredRejected(reports, ms, m.matcher, k, h) ensures exists l :: IsLastWith(ms, m.matcher, l) {
      var l := LastWithMatcher(ms, k);
    }
  }

  ghost predicate DistinctMatchers(ms: seq<MatchedListener>) {
    forall i, j :: 0 <= i < j < |ms| ==> ms[i].matcher != ms[j].matcher
  }

  /** With distinct matchers nothing is lost. */
  lemma DistinctMatchersLoseNothing(reports: Reports, stored: seq<Listener>, d: Listener, i: nat)
    requires d.spec.Hybrid? && i < |d.spec.matched| && d.spec.matched[i].MatchedHttp?
    requires DistinctMatchers(StoredMatched(Lookup(stored, d.name)))
    ensures KeepsRejected(reports, StoredMatched(Lookup(stored, d.name)), d.spec.matched[i].matcher,
                          MatchedVirtualHosts(MatchedOf(Rebuild(reports, stored, d).spec)[i]))
  {
    hide Rebuild, Lookup, Accepted;
    var ms, matcher := StoredMatched(Lookup(stored, d.name)), d.spec.matched[i].matcher;
    RejectedHostsKeptIff(reports, stored, d, i);
    forall l | IsLastWith(ms, matcher, l) ensures KeepsRejected(reports, ms, matcher, MatchedVirtualHosts(ms[l])) {
      forall k, h | StoredRejected(reports, ms, matcher, k, h) ensures k == l {
      }
    }
  }

  // ---- rounds with one listener ----

  lemma PickOne<T>(reports: Reports, x: Object<T>, verdict: bool)
    ensures Pick(reports, [x], verdict) == if Accepted(reports, x.metadata) == verdict then [x] else []
  {
    assert [x][1..] == [];
  }

  lemma SortOne<T>(x: Object<T>)
    ensures Sort([x]) == [x]
  {
    SortOfSorted([x]);
  }

  lemma AcceptedWithoutReports(meta: Metadata)
    ensures Accepted(map[], meta)
  {
  }

  lemma KeepsOne(reports: Reports, h: VirtualHost)
    requires Accepted(reports, h.metadata)
    ensures KeepAccepted(reports, [h]) == [h]
  {
    PickOne(reports, h, true);
    SortOne(h);
  }

  /** The store after two rounds with one listener each, the first without errors and with nothing to strip. */
  lemma TwoRounds(reports: Reports, first: Listener, second: Listener)
    requires StripType(map[], first.spec) == first.spec
    ensures var rounds := [Reconciled(map[], [first]), Reconciled(reports, [second])];
      After(rounds[..1]) == Some([first]) && After(rounds) == Some(Reconcile(reports, Some([first]), [second]))
  {
    hide Reconcile, StripType;
    var one, two := Reconciled(map[], [first]), Reconciled(reports, [second]);
    assert [one, two][..1] == [one] && [one][..0] == [];
    assert After([one]) == Step(After([]), one);
    assert After([one, two]) == Step(After([one]), two);
    FirstRound(first);
  }

  lemma FirstRound(first: Listener)
    requires StripType(map[], first.spec) == first.spec
    ensures Reconcile(map[], None, [first]) == [first]
  {
    hide StripType;
    AcceptedWithoutReports(first.metadata);
    assert StripListeners(map[], [first]) == [first];
    PickOne(map[], first, true);
    SortOne(first);
  }

  // ---- witnesses ----

  function Source(key: SourceKey): Metadata {
    StaticMeta([SourceRef(key.kind, key.name, key.namespace, 0)])
  }

  lemma SourceRejected(reports: Reports, key: SourceKey)
    ensures Accepted(reports, Source(key)) <==> !Errored(reports, key)
  {
    assert KeyOf(Source(key).sources[0]) == key;
    assert SourceKeys(Source(key)) == {key};
  }

  /** Two matched listeners under one matcher, the first with a virtual host generated from `key`. */
  function Shadowing(name: string, matcher: Matcher, key: SourceKey): Listener {
    var a, b := Object("a", Source(key), VirtualHostSpec("")), Object("b", NoMetadata, VirtualHostSpec(""));
    Object(name, NoMetadata, Hybrid([MatchedHttp(matcher, HttpListener([a], "")), MatchedHttp(matcher, HttpListener([b], ""))]))
  }

  /** Its last good version is lost when the resource goes into error. */
  lemma ShadowedHostIsLost(reports: Reports, key: SourceKey, name: string, matcher: Matcher)
    requires Errored(reports, key)
    ensures var l := Shadowing(name, matcher, key);
      var rounds := [Reconciled(map[], [l]), Reconciled(reports, [l])];
      && After(rounds[..1]) == Some([l])
      && After(rounds).Some? && |After(rounds).value| == 1
      && |MatchedOf(After(rounds).value[0].spec)| == 2
      && l.spec.matched[0].http.virtualHosts[0] !in MatchedVirtualHosts(MatchedOf(After(rounds).value[0].spec)[0])
  {
    hide After;
    var l := Shadowing(name, matcher, key);
    var a, b := l.spec.matched[0].http.virtualHosts[0], l.spec.matched[1].http.virtualHosts[0];
    AcceptedWithoutReports(a.metadata);
    KeepsOne(map[], a);
    KeepsOne(map[], b);
    assert StripType(map[], l.spec) == l.spec;
    TwoRounds(reports, l, l);
    RoundOfAccepted(reports, l, l);
    SourceRejected(reports, key);
    RebuiltMatchedIs(reports, [l], l, 0);
    assert IsLastWith(l.spec.matched, matcher, 1);
    StoredHostsAt(l.spec.matched, matcher, 1);
    GraftedMembers(reports, [b], [a], a);
  }

  lemma RoundOfAccepted(reports: Reports, stored: Listener, d: Listener)
    requires Accepted(reports, stored.metadata) && Accepted(reports, d.metadata)
    ensures Reconcile(reports, Some([stored]), [d]) == [Rebuild(reports, [stored], d)]
  {
    hide Reconcile, GraftListener, StripType;
    ReconcileIsGraft(reports, Some([stored]), [d]);
    var r := Rebuild(reports, [stored], d);
    assert RebuildAll(reports, [stored], [d]) == [r];
    RebuildKeepsMetadata(reports, [stored], d);
    PickOne(reports, r, true);
    PickOne(reports, stored, false);
    assert [r] + [] == [r];
    SortOne(r);
  }

  lemma RebuildKeepsMetadata(reports: Reports, stored: seq<Listener>, d: Listener)
    ensures Rebuild(reports, stored, d).metadata == d.metadata && Rebuild(reports, stored, d).name == d.name
  {
  }

  /** A TCP listener generated from one resource. */
  function TcpFrom(name: string, key: SourceKey): Listener {
    Object(name, Source(key), Tcp(""))
  }

  /** A name is written twice when its listener moves to another resource while the old one goes into error. */
  lemma NameIsWrittenTwice(reports: Reports, name: string, before: SourceKey, now: SourceKey)
    requires Errored(reports, before) && !Errored(reports, now)
    ensures var rounds := [Reconciled(map[], [TcpFrom(name, before)]), Reconciled(reports, [TcpFrom(name, now)])];
      After(rounds).Some? && !DistinctNames(After(rounds).value)
  {
    hide After, Reconcile;
    var x, y := TcpFrom(name, before), TcpFrom(name, now);
    TwoRounds(reports, x, y);
    SourceRejected(reports, before);
    SourceRejected(reports, now);
    ReconcileIsGraft(reports, Some([x]), [y]);
    assert RebuildAll(reports, [x], [y]) == [y];
    PickOne(reports, y, true);
    PickOne(reports, x, false);
    SortKeepsNames([y] + [x]);
    assert ([y] + [x])[0].name == ([y] + [x])[1].name;
  }
}
