/** What reconciliation guarantees over any number of rounds: the stored proxy keeps the last known good version of
    every rejected listener and virtual host, the new version of every accepted one, and nothing else. */
module LastKnownGood {
  import opened Common
  import opened Sequences
  import opened Sources
  import opened StableSort
  import opened ProxyModel
  import opened Reconciler

  /** Source stability: the resources a name is generated from are the same in every round. Virtual hosts are named
      within their listener, and within the matcher of a hybrid listener. */
  datatype SourceMap = SourceMap(listener: string -> set<SourceKey>, host: (string, Option<Matcher>, string) -> set<SourceKey>)

  ghost predicate Stable<T>(src: string -> set<SourceKey>, s: seq<Object<T>>) {
    forall i :: 0 <= i < |s| ==> !s[i].metadata.MalformedStruct? && SourceKeys(s[i].metadata) == src(s[i].name)
  }

  function HostSources(sm: SourceMap, listener: string, matcher: Option<Matcher>): string -> set<SourceKey> {
    name => sm.host(listener, matcher, name)
  }

  // ---- names and lookups through sorting ----

  lemma {:induction false} LookupIsNamed<T>(s: seq<Object<T>>, name: string)
    ensures Lookup(s, name) == if Named(s, name) == [] then None else Some(Named(s, name)[0])
  {
    if s != [] {
      LookupIsNamed(s[1..], name);
    }
  }

  ghost predicate AtMostOnce<T>(s: seq<Object<T>>) {
    forall name :: |Named(s, name)| <= 1
  }

  lemma {:induction false} DistinctNamed<T>(s: seq<Object<T>>, name: string)
    requires DistinctNames(s)
    ensures |Named(s, name)| <= 1
  {
    if s != [] {
      var rest := s[1..];
      DistinctNamed(rest, name);
      if s[0].name == name {
        forall i | 0 <= i < |rest| ensures rest[i].name != name {
          assert rest[i] == s[i + 1];
        }
        NamedNone(rest, name);
      }
    }
  }

  lemma {:induction false} NamedNone<T>(s: seq<Object<T>>, name: string)
    requires forall i :: 0 <= i < |s| ==> s[i].name != name
    ensures Named(s, name) == []
  {
    if s != [] {
      NamedNone(s[1..], name);
    }
  }

  lemma NamedTwice<T>(s: seq<Object<T>>, i: nat, j: nat)
    requires i < j < |s| && s[i].name == s[j].name
    ensures |Named(s, s[i].name)| >= 2
  {
    var name := s[i].name;
    assert s == s[..j] + s[j..];
    NamedConcat(s[..j], s[j..], name);
    NamedMembers(s[..j], name);
    NamedMembers(s[j..], name);
    assert s[..j][i] in s[..j] && s[j..][0] in s[j..];
  }

  lemma DistinctIsNamed<T>(s: seq<Object<T>>)
    ensures DistinctNames(s) <==> AtMostOnce(s)
  {
    if DistinctNames(s) {
      forall name ensures |Named(s, name)| <= 1 {
        DistinctNamed(s, name);
      }
    } else {
      var i, j :| 0 <= i < j < |s| && s[i].name == s[j].name;
      NamedTwice(s, i, j);
    }
  }

  lemma SortKeepsNames<T>(s: seq<Object<T>>)
    ensures forall name :: Lookup(Sort(s), name) == Lookup(s, name)
    ensures DistinctNames(Sort(s)) <==> DistinctNames(s)
  {
    SortIsStable(s);
    DistinctIsNamed(s);
    DistinctIsNamed(Sort(s));
    forall name ensures Lookup(Sort(s), name) == Lookup(s, name) {
      LookupIsNamed(s, name);
      LookupIsNamed(Sort(s), name);
    }
  }

  lemma NamedStable<T>(src: string -> set<SourceKey>, reports: Reports, s: seq<Object<T>>, verdict: bool, name: string)
    requires Stable(src, s)
    ensures Named(Pick(reports, s, verdict), name) == if AcceptedKeys(reports, src(name)) == verdict then Named(s, name) else []
  {
    NamedPick(reports, s, verdict, name);
    NamedMembers(s, name);
    var same := Named(s, name);
    forall x | x in same ensures Accepted(reports, x.metadata) == AcceptedKeys(reports, src(name)) {
      var i :| 0 <= i < |same| && same[i] == x;
      var k :| 0 <= k < |s| && s[k] == x;
    }
    PickUniform(reports, same, AcceptedKeys(reports, src(name)));
  }

  lemma StableSubset<T>(src: string -> set<SourceKey>, s: seq<Object<T>>, r: seq<Object<T>>)
    requires Stable(src, s)
    requires forall i :: 0 <= i < |r| ==> r[i] in s
    ensures Stable(src, r)
  {
    forall i | 0 <= i < |r|
      ensures !r[i].metadata.MalformedStruct? && SourceKeys(r[i].metadata) == src(r[i].name)
    {
      var k :| 0 <= k < |s| && s[k] == r[i];
    }
  }

  /** What `r` must be after a round, stated through lookups only: no sorting, filtering or grafting in sight. */
  ghost predicate KeepsLastGood<T>(reports: Reports, src: string -> set<SourceKey>, stored: seq<Object<T>>, desired: seq<Object<T>>, r: seq<Object<T>>) {
    && Sorted(r) && DistinctNames(r) && Stable(src, r)
    && forall name :: Lookup(r, name) == if AcceptedKeys(reports, src(name)) then Lookup(desired, name) else Lookup(stored, name)
  }

  lemma GraftNamed<T>(reports: Reports, src: string -> set<SourceKey>, stored: seq<Object<T>>, desired: seq<Object<T>>, name: string)
    requires Stable(src, stored) && Stable(src, desired)
    ensures Named(Pick(reports, desired, true) + Pick(reports, stored, false), name)
         == if AcceptedKeys(reports, src(name)) then Named(desired, name) else Named(stored, name)
  {
    NamedConcat(Pick(reports, desired, true), Pick(reports, stored, false), name);
    NamedStable(src, reports, desired, true, name);
    NamedStable(src, reports, stored, false, name);
  }

  lemma GraftStable<T>(reports: Reports, src: string -> set<SourceKey>, stored: seq<Object<T>>, desired: seq<Object<T>>)
    requires Stable(src, stored) && Stable(src, desired)
    ensures Stable(src, Pick(reports, desired, true) + Pick(reports, stored, false))
  {
    PickMembers(reports, desired, true);
    PickMembers(reports, stored, false);
    StableSubset(src, desired, Pick(reports, desired, true));
    StableSubset(src, stored, Pick(reports, stored, false));
  }

  /** The central step, for listeners and virtual hosts alike. */
  lemma GraftKeepsLastGood<T>(reports: Reports, src: string -> set<SourceKey>, stored: seq<Object<T>>, desired: seq<Object<T>>)
    requires Stable(src, stored) && DistinctNames(stored)
    requires Stable(src, desired) && DistinctNames(desired)
    ensures KeepsLastGood(reports, src, stored, desired, Sort(Pick(reports, desired, true) + Pick(reports, stored, false)))
  {
    var joined := Pick(reports, desired, true) + Pick(reports, stored, false);
    SortIsStable(joined);
    GraftStable(reports, src, stored, desired);
    SortMembers(joined);
    StableSubset(src, joined, Sort(joined));
    forall name
      ensures |Named(joined, name)| <= 1
      ensures Lookup(joined, name) == if AcceptedKeys(reports, src(name)) then Lookup(desired, name) else Lookup(stored, name)
    {
      GraftNamed(reports, src, stored, desired, name);
      DistinctNamed(stored, name);
      DistinctNamed(desired, name);
      LookupIsNamed(joined, name);
      LookupIsNamed(desired, name);
      LookupIsNamed(stored, name);
    }
    DistinctIsNamed(joined);
    SortKeepsNames(joined);
  }

  // ---- a whole proxy ----

  /** The listeners written in a round: the stripped proxy on first creation, the transition result afterwards. */
  function Reconcile(reports: Reports, stored: Option<seq<Listener>>, desired: seq<Listener>): seq<Listener> {
    match stored
    case None => Strip(reports, desired)
    case Some(original) => Transition(reports, original, Strip(reports, desired))
  }

  function StoredListeners(stored: Option<seq<Listener>>): seq<Listener> {
    match stored case None => [] case Some(ls) => ls
  }

  /** The virtual hosts stored under listener `name`, and under `matcher` if it is a hybrid one. */
  function HostsStoredIn(stored: Option<Listener>, matcher: Option<Matcher>): seq<VirtualHost> {
    match stored
    case None => []
    case Some(l) =>
      match matcher
      case None => HttpVirtualHosts(l.spec)
      case Some(m) => StoredHosts(MatchedOf(l.spec), m)
  }

  ghost predicate GeneratedHosts(src: string -> set<SourceKey>, vhs: seq<VirtualHost>) {
    Stable(src, vhs) && DistinctNames(vhs)
  }

  ghost predicate GeneratedType(sm: SourceMap, name: string, spec: ListenerType) {
    && (spec.Http? ==> GeneratedHosts(HostSources(sm, name, None), spec.http.virtualHosts))
    && (spec.Hybrid? ==> forall i :: 0 <= i < |spec.matched| ==>
          GeneratedHosts(HostSources(sm, name, Some(spec.matched[i].matcher)), MatchedVirtualHosts(spec.matched[i])))
  }

  /** What the translator is assumed to produce: stable sources and distinct names. */
  ghost predicate Generated(sm: SourceMap, ls: seq<Listener>) {
    && Stable(sm.listener, ls) && DistinctNames(ls)
    && forall i :: 0 <= i < |ls| ==> GeneratedType(sm, ls[i].name, ls[i].spec)
  }

  ghost predicate SortedType(spec: ListenerType) {
    && (spec.Http? ==> Sorted(spec.http.virtualHosts))
    && (spec.Hybrid? ==> forall i :: 0 <= i < |spec.matched| ==> Sorted(MatchedVirtualHosts(spec.matched[i])))
  }

  /** The invariant of the store: no duplicate name at either level, everything in sorted order. */
  ghost predicate WellStored(sm: SourceMap, ls: seq<Listener>) {
    Generated(sm, ls) && Sorted(ls) && forall i :: 0 <= i < |ls| ==> SortedType(ls[i].spec)
  }

  function StoredMatched(stored: Option<Listener>): seq<MatchedListener> {
    if stored.Some? && stored.value.spec.Hybrid? then stored.value.spec.matched else []
  }

  /** The k-th matched listener is the last one with that matcher. */
  ghost predicate IsLastWith(ms: seq<MatchedListener>, matcher: Matcher, k: int) {
    0 <= k < |ms| && ms[k].matcher == matcher && forall j :: k < j < |ms| ==> ms[j].matcher != matcher
  }

  ghost predicate NoneWith(ms: seq<MatchedListener>, matcher: Matcher) {
    forall k :: 0 <= k < |ms| ==> ms[k].matcher != matcher
  }

  /** What is stored under a matcher is what the last matched listener with it stores; matchers may repeat. */
  ghost predicate MatchedLastGood(sm: SourceMap, reports: Reports, stored: Option<Listener>, name: string, d: MatchedListener, r: MatchedListener) {
    if d.MatchedHttp? then
      var ms, src := StoredMatched(stored), HostSources(sm, name, Some(d.matcher));
      && r.MatchedHttp? && r.matcher == d.matcher && r.http.options == d.http.options
      && (forall k :: IsLastWith(ms, d.matcher, k) ==>
            KeepsLastGood(reports, src, if ms[k].MatchedHttp? then ms[k].http.virtualHosts else [], d.http.virtualHosts, r.http.virtualHosts))
      && (NoneWith(ms, d.matcher) ==> KeepsLastGood(reports, src, [], d.http.virtualHosts, r.http.virtualHosts))
    else
      r == d
  }

  /** The names of the referenced virtual hosts that are accepted; a dangling reference is one without name or sources. */
  ghost function AcceptedNames(reports: Reports, resources: map<string, VirtualHost>, refs: seq<string>): seq<string> {
    if refs == [] then []
    else
      var n := |refs| - 1;
      AcceptedNames(reports, resources, refs[..n]) +
      if refs[n] !in resources then [""]
      else if Accepted(reports, resources[refs[n]].metadata) then [resources[refs[n]].name]
      else []
  }

  /** A filter chain keeps its matcher and options, and of its references those to accepted virtual hosts, by name in order. */
  ghost predicate ChainLastGood(reports: Reports, resources: map<string, VirtualHost>, c: FilterChain, r: FilterChain) {
    && r.matcher == c.matcher && r.httpOptionsRef == c.httpOptionsRef
    && multiset(r.virtualHostRefs) == multiset(AcceptedNames(reports, resources, c.virtualHostRefs))
    && forall i, j :: 0 <= i < j < |r.virtualHostRefs| ==> Le(r.virtualHostRefs[i], r.virtualHostRefs[j])
  }

  /** An accepted listener is the desired one, with each of its virtual hosts at its last good version; an aggregate one
      has no stored version to fall back to. */
  ghost predicate ListenerLastGood(sm: SourceMap, reports: Reports, stored: Option<Listener>, d: Listener, r: Listener) {
    && r.name == d.name && r.metadata == d.metadata
    && match d.spec
       case Http(http) =>
         && r.spec.Http? && r.spec.http.options == http.options
         && KeepsLastGood(reports, HostSources(sm, d.name, None),
                          if stored.Some? && stored.value.spec.Http? then stored.value.spec.http.virtualHosts else [],
                          http.virtualHosts, r.spec.http.virtualHosts)
       case Hybrid(ms) =>
         && r.spec.Hybrid? && |r.spec.matched| == |ms|
         && forall i :: 0 <= i < |ms| ==> MatchedLastGood(sm, reports, stored, d.name, ms[i], r.spec.matched[i])
       case Aggregate(resources, cs) =>
         && r.spec.Aggregate? && r.spec.resources == resources && |r.spec.chains| == |cs|
         && forall i :: 0 <= i < |cs| ==> ChainLastGood(reports, resources, cs[i], r.spec.chains[i])
       case Tcp(_) => r.spec == d.spec
  }

  ghost predicate ProxyLastGood(sm: SourceMap, reports: Reports, stored: seq<Listener>, desired: seq<Listener>, r: seq<Listener>) {
    forall name ::
      var now := Lookup(r, name);
      if !AcceptedKeys(reports, sm.listener(name)) then now == Lookup(stored, name)
      else match Lookup(desired, name)
           case None => now.None?
           case Some(d) => now.Some? && ListenerLastGood(sm, reports, Lookup(stored, name), d, now.value)
  }

  /** The listener that replaces an accepted desired listener. */
  function Rebuild(reports: Reports, stored: seq<Listener>, l: Listener): Listener {
    GraftListener(reports, stored, l.(spec := StripType(reports, l.spec)))
  }

  function RebuildAll(reports: Reports, stored: seq<Listener>, ls: seq<Listener>): seq<Listener> {
    GraftListeners(reports, stored, StripListeners(reports, ls))
  }

  // ---- grafting commutes with sorting and picking ----

  lemma {:induction false} GraftInsert(reports: Reports, stored: seq<Listener>, s: seq<Listener>, x: Listener)
    ensures GraftListeners(reports, stored, Insert(s, x)) == Insert(GraftListeners(reports, stored, s), GraftListener(reports, stored, x))
  {
    hide GraftType;
    if s != [] {
      GraftInsert(reports, stored, s[1..], x);
      assert GraftListeners(reports, stored, s)[1..] == GraftListeners(reports, stored, s[1..]);
    }
  }

  lemma {:induction false} GraftSort(reports: Reports, stored: seq<Listener>, s: seq<Listener>)
    ensures GraftListeners(reports, stored, Sort(s)) == Sort(GraftListeners(reports, stored, s))
  {
    hide GraftType;
    if s != [] {
      var init := s[..|s| - 1];
      GraftSort(reports, stored, init);
      GraftInsert(reports, stored, Sort(init), s[|s| - 1]);
      assert GraftListeners(reports, stored, s)[..|s| - 1] == GraftListeners(reports, stored, init);
    }
  }

  lemma {:induction false} GraftPick(reports: Reports, stored: seq<Listener>, s: seq<Listener>, verdict: bool)
    ensures GraftListeners(reports, stored, Pick(reports, s, verdict)) == Pick(reports, GraftListeners(reports, stored, s), verdict)
  {
    hide GraftType;
    if s != [] {
      GraftPick(reports, stored, s[1..], verdict);
      assert GraftListeners(reports, stored, s)[1..] == GraftListeners(reports, stored, s[1..]);
    }
  }

  /** A round, as one graft of rebuilt listeners onto the store. */
  lemma ReconcileIsGraft(reports: Reports, stored: Option<seq<Listener>>, desired: seq<Listener>)
    ensures var original := StoredListeners(stored);
      Reconcile(reports, stored, desired)
      == Sort(Pick(reports, RebuildAll(reports, original, desired), true) + Pick(reports, original, false))
  {
    var original := StoredListeners(stored);
    var stripped := StripListeners(reports, desired);
    var picked := Pick(reports, stripped, true);
    GraftSort(reports, original, picked);
    GraftPick(reports, original, stripped, true);
    SortAbsorbs(GraftListeners(reports, original, picked), Pick(reports, original, false));
    if stored.None? {
      assert GraftListeners(reports, original, picked) == picked;
      assert picked + [] == picked;
    }
  }

  lemma {:induction false} LookupRebuilt(reports: Reports, stored: seq<Listener>, ls: seq<Listener>, name: string)
    ensures var now := Lookup(RebuildAll(reports, stored, ls), name);
      match Lookup(ls, name)
      case None => now.None?
      case Some(d) => now == Some(Rebuild(reports, stored, d))
  {
    if ls != [] {
      LookupRebuilt(reports, stored, ls[1..], name);
      assert RebuildAll(reports, stored, ls)[1..] == RebuildAll(reports, stored, ls[1..]);
    }
  }

  // ---- inside one listener ----

  lemma HostsLastGood(reports: Reports, src: string -> set<SourceKey>, stored: seq<VirtualHost>, desired: seq<VirtualHost>)
    requires GeneratedHosts(src, stored) && GeneratedHosts(src, desired)
    ensures KeepsLastGood(reports, src, stored, desired, Graft(reports, stored, KeepAccepted(reports, desired)))
    ensures stored == [] ==> Graft(reports, stored, KeepAccepted(reports, desired)) == KeepAccepted(reports, desired)
  {
    GraftKeepsLastGood(reports, src, stored, desired);
    SortAbsorbs(Pick(reports, desired, true), Pick(reports, stored, false));
    if stored == [] {
      SortIsStable(Pick(reports, desired, true));
      SortOfSorted(KeepAccepted(reports, desired));
      assert KeepAccepted(reports, desired) + [] == KeepAccepted(reports, desired);
    }
  }

  lemma {:induction false} StoredHostsGenerated(sm: SourceMap, name: string, ms: seq<MatchedListener>, matcher: Matcher)
    requires GeneratedType(sm, name, Hybrid(ms))
    ensures GeneratedHosts(HostSources(sm, name, Some(matcher)), StoredHosts(ms, matcher))
  {
    if ms != [] {
      var n := |ms| - 1;
      if ms[n].matcher != matcher {
        assert forall i :: 0 <= i < n ==> ms[..n][i] == ms[i];
        StoredHostsGenerated(sm, name, ms[..n], matcher);
      }
    }
  }

  lemma HostsStoredGenerated(sm: SourceMap, stored: seq<Listener>, name: string, matcher: Option<Matcher>)
    requires Generated(sm, stored)
    ensures GeneratedHosts(HostSources(sm, name, matcher), HostsStoredIn(Lookup(stored, name), matcher))
  {
    LookupSound(stored, name);
    var found := Lookup(stored, name);
    if found.Some? {
      var i :| 0 <= i < |stored| && stored[i] == found.value;
      assert GeneratedType(sm, stored[i].name, stored[i].spec);
      if matcher.Some? && found.value.spec.Hybrid? {
        StoredHostsGenerated(sm, name, found.value.spec.matched, matcher.value);
      }
    }
  }

  /** The last matched listener with the matcher of ms[k]. */
  lemma LastWithMatcher(ms: seq<MatchedListener>, k: nat) returns (last: nat)
    requires k < |ms|
    ensures k <= last && IsLastWith(ms, ms[k].matcher, last)
  {
    last := k;
    for i := k + 1 to |ms|
      invariant k <= last < i && ms[last].matcher == ms[k].matcher
      invariant forall j :: last < j < i ==> ms[j].matcher != ms[k].matcher
    {
      if ms[i].matcher == ms[k].matcher {
        last := i;
      }
    }
  }

  lemma {:induction false} StoredHostsAt(ms: seq<MatchedListener>, matcher: Matcher, last: int)
    requires IsLastWith(ms, matcher, last)
    ensures StoredHosts(ms, matcher) == MatchedVirtualHosts(ms[last])
  {
    if last < |ms| - 1 {
      StoredHostsAt(ms[..|ms| - 1], matcher, last);
    }
  }

  lemma {:induction false} StoredHostsNone(ms: seq<MatchedListener>, matcher: Matcher)
    requires NoneWith(ms, matcher)
    ensures StoredHosts(ms, matcher) == []
  {
    if ms != [] {
      assert forall k :: 0 <= k < |ms| - 1 ==> ms[..|ms| - 1][k] == ms[k];
      StoredHostsNone(ms[..|ms| - 1], matcher);
    }
  }

  lemma RebuildMatchedLastGood(sm: SourceMap, reports: Reports, stored: seq<Listener>, d: Listener, i: nat)
    requires Generated(sm, stored) && GeneratedType(sm, d.name, d.spec) && d.spec.Hybrid? && i < |d.spec.matched|
    ensures MatchedLastGood(sm, reports, Lookup(stored, d.name), d.name, d.spec.matched[i],
                            GraftMatched(reports, StoredMatched(Lookup(stored, d.name)), StripMatched(reports, d.spec.matched[i])))
  {
    hide KeepsLastGood;
    var m, found := d.spec.matched[i], Lookup(stored, d.name);
    var ms, matcher := StoredMatched(found), Some(m.matcher);
    if m.MatchedHttp? {
      HostsStoredGenerated(sm, stored, d.name, matcher);
      HostsLastGood(reports, HostSources(sm, d.name, matcher), HostsStoredIn(found, matcher), m.http.virtualHosts);
      forall k | IsLastWith(ms, m.matcher, k) ensures HostsStoredIn(found, matcher) == MatchedVirtualHosts(ms[k]) {
        StoredHostsAt(ms, m.matcher, k);
      }
      if NoneWith(ms, m.matcher) {
        StoredHostsNone(ms, m.matcher);
      }
    }
  }

  lemma {:induction false} AcceptedNamesAre(reports: Reports, resources: map<string, VirtualHost>, refs: seq<string>)
    ensures NamesOf(Pick(reports, ResolveRefs(resources, refs), true)) == AcceptedNames(reports, resources, refs)
  {
    hide Pick;
    var hosts := ResolveRefs(resources, refs);
    if refs == [] {
      PickNothing(reports, hosts, true);
    } else {
      var n := |refs| - 1;
      AcceptedNamesAre(reports, resources, refs[..n]);
      assert ResolveRefs(resources, refs[..n]) == hosts[..n];
      PickSnoc(reports, hosts, n, true);
      assert hosts[..n + 1] == hosts;
    }
  }

  lemma PickNothing(reports: Reports, s: seq<VirtualHost>, verdict: bool)
    requires s == []
    ensures Pick(reports, s, verdict) == []
  {
  }

  lemma StrippedChainIsGood(reports: Reports, resources: map<string, VirtualHost>, c: FilterChain)
    ensures ChainLastGood(reports, resources, c, StripChain(reports, resources, c))
  {
    hide Pick, Sort;
    var picked := Pick(reports, ResolveRefs(resources, c.virtualHostRefs), true);
    var name := (o: VirtualHost) => o.name;
    SortIsStable(picked);
    MappedPermutes(name, picked, Sort(picked));
    assert NamesOf(picked) == Mapped(name, picked) && NamesOf(Sort(picked)) == Mapped(name, Sort(picked));
    AcceptedNamesAre(reports, resources, c.virtualHostRefs);
  }

  lemma RebuildLastGood(sm: SourceMap, reports: Reports, stored: seq<Listener>, d: Listener)
    requires Generated(sm, stored) && GeneratedType(sm, d.name, d.spec)
    ensures ListenerLastGood(sm, reports, Lookup(stored, d.name), d, Rebuild(reports, stored, d))
  {
    hide KeepsLastGood, ChainLastGood;
    var found, r := Lookup(stored, d.name), Rebuild(reports, stored, d);
    match d.spec {
      case Http(http) =>
        HostsStoredGenerated(sm, stored, d.name, None);
        HostsLastGood(reports, HostSources(sm, d.name, None), HostsStoredIn(found, None), http.virtualHosts);
      case Hybrid(ms) =>
        forall i | 0 <= i < |ms| ensures MatchedLastGood(sm, reports, found, d.name, ms[i], r.spec.matched[i]) {
          RebuiltMatchedIs(reports, stored, d, i);
          RebuildMatchedLastGood(sm, reports, stored, d, i);
        }
      case Aggregate(resources, cs) =>
        forall i | 0 <= i < |cs| ensures ChainLastGood(reports, resources, cs[i], r.spec.chains[i]) {
          StrippedChainIsGood(reports, resources, cs[i]);
        }
      case Tcp(_) =>
    }
  }

  /** A matched listener of a rebuilt one; not being stored is like being stored empty. */
  lemma RebuiltMatchedIs(reports: Reports, stored: seq<Listener>, d: Listener, i: nat)
    requires d.spec.Hybrid? && i < |d.spec.matched|
    ensures var r := Rebuild(reports, stored, d);
      && r.spec.Hybrid? && |r.spec.matched| == |d.spec.matched|
      && r.spec.matched[i] == GraftMatched(reports, StoredMatched(Lookup(stored, d.name)), StripMatched(reports, d.spec.matched[i]))
  {
    var m := d.spec.matched[i];
    if Lookup(stored, d.name).None? && m.MatchedHttp? {
      var hosts := KeepAccepted(reports, m.http.virtualHosts);
      SortIsStable(Pick(reports, m.http.virtualHosts, true));
      SortOfSorted(hosts);
      assert hosts + [] == hosts;
    }
  }

  lemma LastGoodIsWellStored(sm: SourceMap, reports: Reports, stored: Option<Listener>, d: Listener, r: Listener)
    requires ListenerLastGood(sm, reports, stored, d, r)
    ensures GeneratedType(sm, r.name, r.spec) && SortedType(r.spec)
  {
    if d.spec.Hybrid? {
      var ms := StoredMatched(stored);
      forall i | 0 <= i < |r.spec.matched|
        ensures GeneratedHosts(HostSources(sm, r.name, Some(r.spec.matched[i].matcher)), MatchedVirtualHosts(r.spec.matched[i]))
        ensures Sorted(MatchedVirtualHosts(r.spec.matched[i]))
      {
        var m := d.spec.matched[i];
        assert MatchedLastGood(sm, reports, stored, d.name, m, r.spec.matched[i]);
        if k :| 0 <= k < |ms| && ms[k].matcher == m.matcher {
          var last := LastWithMatcher(ms, k);
        }
      }
    }
  }

  lemma RebuiltIsGenerated(sm: SourceMap, reports: Reports, stored: seq<Listener>, desired: seq<Listener>)
    requires Generated(sm, stored) && Generated(sm, desired)
    ensures var rebuilt := RebuildAll(reports, stored, desired);
      Stable(sm.listener, rebuilt) && DistinctNames(rebuilt) && WellTyped(sm, rebuilt)
  {
    var rebuilt := RebuildAll(reports, stored, desired);
    assert forall i :: 0 <= i < |rebuilt| ==> rebuilt[i] == Rebuild(reports, stored, desired[i]);
    assert forall i :: 0 <= i < |rebuilt| ==> rebuilt[i].name == desired[i].name && rebuilt[i].metadata == desired[i].metadata;
    forall i | 0 <= i < |rebuilt|
      ensures GeneratedType(sm, rebuilt[i].name, rebuilt[i].spec) && SortedType(rebuilt[i].spec)
    {
      RebuildLastGood(sm, reports, stored, desired[i]);
      LastGoodIsWellStored(sm, reports, Lookup(stored, desired[i].name), desired[i], rebuilt[i]);
    }
  }

  ghost predicate WellTyped(sm: SourceMap, ls: seq<Listener>) {
    forall i :: 0 <= i < |ls| ==> GeneratedType(sm, ls[i].name, ls[i].spec) && SortedType(ls[i].spec)
  }

  lemma WellTypedSubset(sm: SourceMap, s: seq<Listener>, r: seq<Listener>)
    requires WellTyped(sm, s)
    requires forall i :: 0 <= i < |r| ==> r[i] in s
    ensures WellTyped(sm, r)
  {
    forall i | 0 <= i < |r| ensures GeneratedType(sm, r[i].name, r[i].spec) && SortedType(r[i].spec) {
      var k :| 0 <= k < |s| && s[k] == r[i];
    }
  }

  lemma RoundWellStored(sm: SourceMap, reports: Reports, stored: seq<Listener>, rebuilt: seq<Listener>)
    requires WellStored(sm, stored)
    requires Stable(sm.listener, rebuilt) && DistinctNames(rebuilt) && WellTyped(sm, rebuilt)
    ensures WellStored(sm, Sort(Pick(reports, rebuilt, true) + Pick(reports, stored, false)))
  {
    var fresh', kept := Pick(reports, rebuilt, true), Pick(reports, stored, false);
    GraftKeepsLastGood(reports, sm.listener, stored, rebuilt);
    PickMembers(reports, rebuilt, true);
    WellTypedSubset(sm, rebuilt, fresh');
    PickMembers(reports, stored, false);
    WellTypedSubset(sm, stored, kept);
    SortMembers(fresh' + kept);
    WellTypedSubset(sm, fresh' + kept, Sort(fresh' + kept));
  }

  lemma RebuiltLastGood(sm: SourceMap, reports: Reports, stored: seq<Listener>, desired: seq<Listener>, name: string)
    requires Generated(sm, stored) && Generated(sm, desired)
    ensures var now := Lookup(RebuildAll(reports, stored, desired), name);
      match Lookup(desired, name)
      case None => now.None?
      case Some(d) => now.Some? && ListenerLastGood(sm, reports, Lookup(stored, name), d, now.value)
  {
    LookupRebuilt(reports, stored, desired, name);
    LookupSound(desired, name);
    if Lookup(desired, name).Some? {
      var d := Lookup(desired, name).value;
      var k :| 0 <= k < |desired| && desired[k] == d;
      assert GeneratedType(sm, desired[k].name, desired[k].spec);
      RebuildLastGood(sm, reports, stored, d);
    }
  }

  /** One round, from any well-stored proxy (or none) and any generated one. */
  lemma RoundKeepsLastGood(sm: SourceMap, reports: Reports, stored: Option<seq<Listener>>, desired: seq<Listener>)
    requires stored.Some? ==> WellStored(sm, stored.value)
    requires Generated(sm, desired)
    ensures WellStored(sm, Reconcile(reports, stored, desired))
    ensures ProxyLastGood(sm, reports, StoredListeners(stored), desired, Reconcile(reports, stored, desired))
  {
    var original := StoredListeners(stored);
    var rebuilt := RebuildAll(reports, original, desired);
    ReconcileIsGraft(reports, stored, desired);
    RebuiltIsGenerated(sm, reports, original, desired);
    RoundWellStored(sm, reports, original, rebuilt);
    GraftKeepsLastGood(reports, sm.listener, original, rebuilt);
    forall name | true
      ensures var now := Lookup(rebuilt, name);
        match Lookup(desired, name)
        case None => now.None?
        case Some(d) => now.Some? && ListenerLastGood(sm, reports, Lookup(original, name), d, now.value)
    {
      RebuiltLastGood(sm, reports, original, desired, name);
    }
  }

  // ---- runs ----

  /** A round either reconciles a generated proxy, fails before anything is written, or finds the proxy gone. */
  datatype Round = Reconciled(reports: Reports, desired: seq<Listener>) | Failed | Removed

  function Step(stored: Option<seq<Listener>>, round: Round): Option<seq<Listener>> {
    match round
    case Reconciled(reports, desired) => Some(Reconcile(reports, stored, desired))
    case Failed => stored
    case Removed => None
  }

  /** The store after `rounds`, starting from nothing. */
  function After(rounds: seq<Round>): Option<seq<Listener>> {
    if rounds == [] then None else Step(After(rounds[..|rounds| - 1]), rounds[|rounds| - 1])
  }

  ghost predicate AllGenerated(sm: SourceMap, rounds: seq<Round>) {
    forall i :: 0 <= i < |rounds| && rounds[i].Reconciled? ==> Generated(sm, rounds[i].desired)
  }

  /** Every proxy written in any run has distinct names, in sorted order, at both levels. */
  lemma {:induction false} EveryWrittenProxyIsWellStored(sm: SourceMap, rounds: seq<Round>)
    requires AllGenerated(sm, rounds)
    ensures After(rounds).Some? ==> WellStored(sm, After(rounds).value)
  {
    if rounds != [] {
      var n := |rounds| - 1;
      assert forall i :: 0 <= i < n ==> rounds[..n][i] == rounds[i];
      EveryWrittenProxyIsWellStored(sm, rounds[..n]);
      if rounds[n].Reconciled? {
        RoundKeepsLastGood(sm, rounds[n].reports, After(rounds[..n]), rounds[n].desired);
      }
    }
  }

  /** After every reconciled round k of any run, each name is at its last good version with respect to round k. */
  lemma EveryRoundKeepsLastGood(sm: SourceMap, rounds: seq<Round>, k: nat)
    requires AllGenerated(sm, rounds)
    requires k < |rounds| && rounds[k].Reconciled?
    ensures After(rounds[..k + 1]).Some?
    ensures ProxyLastGood(sm, rounds[k].reports, StoredListeners(After(rounds[..k])), rounds[k].desired, After(rounds[..k + 1]).value)
  {
    assert rounds[..k + 1][..k] == rounds[..k];
    assert AllGenerated(sm, rounds[..k]);
    EveryWrittenProxyIsWellStored(sm, rounds[..k]);
    RoundKeepsLastGood(sm, rounds[k].reports, After(rounds[..k]), rounds[k].desired);
  }

  lemma {:induction false} PickLength<T>(reports: Reports, s: seq<Object<T>>, verdict: bool)
    ensures |Pick(reports, s, verdict)| <= |s|
  {
    if s != [] {
      PickLength(reports, s[1..], verdict);
    }
  }

  lemma PickDistinct<T>(reports: Reports, s: seq<Object<T>>, verdict: bool)
    requires DistinctNames(s)
    ensures DistinctNames(Pick(reports, s, verdict))
  {
    forall name ensures |Named(Pick(reports, s, verdict), name)| <= 1 {
      NamedPick(reports, s, verdict, name);
      DistinctNamed(s, name);
      PickLength(reports, Named(s, name), verdict);
    }
    DistinctIsNamed(Pick(reports, s, verdict));
  }

  /** A rejected stored object shares its name with a desired one that survived stripping. */
  ghost predicate Clash<T>(reports: Reports, stored: seq<Object<T>>, desired: seq<Object<T>>) {
    exists i, j :: 0 <= i < |desired| && 0 <= j < |stored|
      && desired[i].name == stored[j].name && !Accepted(reports, stored[j].metadata)
  }

  /** The same, with the stored objects a graft keeps. */
  ghost predicate KeptClash<T>(kept: seq<Object<T>>, desired: seq<Object<T>>) {
    exists i, k :: 0 <= i < |desired| && 0 <= k < |kept| && desired[i].name == kept[k].name
  }

  lemma ClashIsKept<T>(reports: Reports, stored: seq<Object<T>>, desired: seq<Object<T>>, i: int, j: int)
    requires 0 <= i < |desired| && 0 <= j < |stored| && desired[i].name == stored[j].name && !Accepted(reports, stored[j].metadata)
    ensures KeptClash(Pick(reports, stored, false), desired)
  {
    hide Pick, Accepted;
    var kept := Pick(reports, stored, false);
    PickMembers(reports, stored, false);
    assert stored[j] in stored;
    var k :| 0 <= k < |kept| && kept[k] == stored[j];
    assert desired[i].name == kept[k].name;
  }

  lemma KeptIsClash<T>(reports: Reports, stored: seq<Object<T>>, desired: seq<Object<T>>, i: int, k: int)
    requires 0 <= i < |desired| && 0 <= k < |Pick(reports, stored, false)| && desired[i].name == Pick(reports, stored, false)[k].name
    ensures Clash(reports, stored, desired)
  {
    hide Pick, Accepted;
    var kept := Pick(reports, stored, false);
    PickMembers(reports, stored, false);
    assert kept[k] in stored && !Accepted(reports, kept[k].metadata);
    var j :| 0 <= j < |stored| && stored[j] == kept[k];
    assert desired[i].name == stored[j].name && !Accepted(reports, stored[j].metadata);
  }

  lemma ClashWithKept<T>(reports: Reports, stored: seq<Object<T>>, desired: seq<Object<T>>)
    ensures Clash(reports, stored, desired) <==> KeptClash(Pick(reports, stored, false), desired)
  {
    hide Pick, Accepted;
    var kept := Pick(reports, stored, false);
    if Clash(reports, stored, desired) {
      var i, j :| 0 <= i < |desired| && 0 <= j < |stored| && desired[i].name == stored[j].name && !Accepted(reports, stored[j].metadata);
      ClashIsKept(reports, stored, desired, i, j);
    }
    if KeptClash(kept, desired) {
      var i, k :| 0 <= i < |desired| && 0 <= k < |kept| && desired[i].name == kept[k].name;
      KeptIsClash(reports, stored, desired, i, k);
    }
  }

  /** Without source stability a name can be written twice, and this is exactly when. */
  lemma DuplicateNamesIff<T>(reports: Reports, stored: seq<Object<T>>, desired: seq<Object<T>>)
    requires DistinctNames(stored) && DistinctNames(desired)
    ensures DistinctNames(Sort(desired + Pick(reports, stored, false))) <==> !Clash(reports, stored, desired)
  {
    var kept := Pick(reports, stored, false);
    SortKeepsNames(desired + kept);
    ClashWithKept(reports, stored, desired);
    PickDistinct(reports, stored, false);
    DistinctConcat(desired, kept);
  }

  lemma DistinctConcat<T>(a: seq<Object<T>>, b: seq<Object<T>>)
    requires DistinctNames(a) && DistinctNames(b)
    ensures DistinctNames(a + b) <==> !KeptClash(b, a)
  {
    if KeptClash(b, a) {
      var i, k :| 0 <= i < |a| && 0 <= k < |b| && a[i].name == b[k].name;
      assert (a + b)[i].name == (a + b)[|a| + k].name;
    }
  }
}
