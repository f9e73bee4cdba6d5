/** Reconciling a stored result again with the same desired proxy and reports changes nothing, order included. */
module ReconcileIdempotence {
  import opened Common
  import opened Sources
  import opened StableSort
  import opened ProxyModel
  import opened Reconciler
  import opened LastKnownGood

  ghost predicate AllAccepted<T>(reports: Reports, s: seq<Object<T>>) {
    forall x :: x in s ==> Accepted(reports, x.metadata)
  }

  /** Rejected objects of a grafted list are the grafted ones, in sorted order. */
  lemma RejectedOfGraft<T>(reports: Reports, original: seq<Object<T>>, desired: seq<Object<T>>)
    requires AllAccepted(reports, desired)
    ensures var kept := Pick(reports, original, false);
      Pick(reports, Sort(desired + kept), false) == Sort(kept)
  {
    var kept := Pick(reports, original, false);
    PickCommutesWithSort(reports, desired + kept, false);
    PickConcat(reports, desired, kept, false);
    PickUniform(reports, desired, true);
    PickMembers(reports, original, false);
    PickUniform(reports, kept, false);
    assert [] + kept == kept;
  }

  lemma GraftAgain(reports: Reports, original: seq<VirtualHost>, sibling: seq<VirtualHost>, desired: seq<VirtualHost>)
    requires AllAccepted(reports, sibling)
    ensures Graft(reports, Graft(reports, original, sibling), desired) == Graft(reports, original, desired)
  {
    RejectedOfGraft(reports, original, sibling);
    SortAbsorbs(desired, Pick(reports, original, false));
  }

  /** A listener type as stripping leaves it: accepted virtual hosts only, sorted. */
  ghost predicate StrippedType(reports: Reports, spec: ListenerType) {
    && AllAccepted(reports, HttpVirtualHosts(spec)) && Sorted(HttpVirtualHosts(spec))
    && forall i :: 0 <= i < |MatchedOf(spec)| ==>
         AllAccepted(reports, MatchedVirtualHosts(MatchedOf(spec)[i])) && Sorted(MatchedVirtualHosts(MatchedOf(spec)[i]))
  }

  /** For every HTTP matched listener, the last one with its matcher is HTTP too. The translator does not compare matchers,
      so an HTTP and a TCP matched listener may share one. */
  ghost predicate LastIsHttp(spec: ListenerType) {
    forall i, k :: 0 <= i < |MatchedOf(spec)| && MatchedOf(spec)[i].MatchedHttp? && IsLastWith(MatchedOf(spec), MatchedOf(spec)[i].matcher, k)
      ==> MatchedOf(spec)[k].MatchedHttp?
  }

  ghost predicate NothingErrored(reports: Reports) {
    forall key :: !Errored(reports, key)
  }

  lemma GraftTypeIdempotent(reports: Reports, original: ListenerType, desired: ListenerType)
    requires StrippedType(reports, desired) && LastIsHttp(desired)
    ensures GraftType(reports, GraftType(reports, original, desired), desired) == GraftType(reports, original, desired)
  {
    match desired {
      case Http(http) =>
        GraftAgain(reports, HttpVirtualHosts(original), http.virtualHosts, http.virtualHosts);
      case Hybrid(ms) =>
        hide GraftMatched;
        var once := GraftType(reports, original, desired).matched;
        forall i | 0 <= i < |ms| ensures GraftMatched(reports, once, ms[i]) == once[i] {
          GraftMatchedIdempotent(reports, MatchedOf(original), desired, once, i);
        }
      case Aggregate(_, _) =>
      case Tcp(_) =>
    }
  }

  lemma GraftMatchedIdempotent(reports: Reports, original: seq<MatchedListener>, desired: ListenerType, once: seq<MatchedListener>, i: nat)
    requires StrippedType(reports, desired) && LastIsHttp(desired) && desired.Hybrid? && i < |desired.matched| == |once|
    requires forall j :: 0 <= j < |once| ==> once[j] == GraftMatched(reports, original, desired.matched[j])
    ensures GraftMatched(reports, once, desired.matched[i]) == once[i]
  {
    hide Graft, StoredHosts, Sorted;
    var ms := desired.matched;
    if ms[i].MatchedHttp? {
      assert MatchedOf(desired) == ms;
      var last := LastWithMatcher(ms, i);
      assert ms[last].MatchedHttp?;
      assert IsLastWith(once, ms[i].matcher, last);
      StoredHostsAt(once, ms[i].matcher, last);
      GraftAgain(reports, StoredHosts(original, ms[i].matcher), ms[last].http.virtualHosts, ms[i].http.virtualHosts);
    }
  }

  lemma GraftNothing(reports: Reports, desired: seq<VirtualHost>)
    requires Sorted(desired)
    ensures Graft(reports, [], desired) == desired
  {
    SortOfSorted(desired);
    assert desired + [] == desired;
  }

  /** A listener missing from the store behaves like one stored without virtual hosts. */
  lemma GraftFromNothing(reports: Reports, desired: ListenerType)
    requires StrippedType(reports, desired)
    ensures GraftType(reports, Tcp(""), desired) == desired
  {
    match desired {
      case Http(http) => GraftNothing(reports, http.virtualHosts);
      case Hybrid(ms) =>
        forall i | 0 <= i < |ms| ensures GraftMatched(reports, [], ms[i]) == ms[i] {
          assert MatchedOf(desired)[i] == ms[i];
          if ms[i].MatchedHttp? {
            GraftNothing(reports, ms[i].http.virtualHosts);
          }
        }
      case Aggregate(_, _) =>
      case Tcp(_) =>
    }
  }

  lemma KeepAcceptedIsStripped(reports: Reports, vhs: seq<VirtualHost>)
    ensures AllAccepted(reports, KeepAccepted(reports, vhs)) && Sorted(KeepAccepted(reports, vhs))
  {
    SortIsStable(Pick(reports, vhs, true));
    SortMembers(Pick(reports, vhs, true));
    PickMembers(reports, vhs, true);
  }

  lemma StripTypeIsStripped(reports: Reports, spec: ListenerType)
    ensures StrippedType(reports, StripType(reports, spec))
    ensures LastIsHttp(StripType(reports, spec)) <==> LastIsHttp(spec)
  {
    var r := StripType(reports, spec);
    if spec.Http? {
      KeepAcceptedIsStripped(reports, spec.http.virtualHosts);
    }
    assert |MatchedOf(r)| == |MatchedOf(spec)| && forall i :: 0 <= i < |MatchedOf(r)| ==>
      MatchedOf(r)[i].matcher == MatchedOf(spec)[i].matcher && MatchedOf(r)[i].MatchedHttp? == MatchedOf(spec)[i].MatchedHttp?;
    forall i | 0 <= i < |MatchedOf(r)|
      ensures AllAccepted(reports, MatchedVirtualHosts(MatchedOf(r)[i])) && Sorted(MatchedVirtualHosts(MatchedOf(r)[i]))
    {
      KeepAcceptedIsStripped(reports, MatchedVirtualHosts(MatchedOf(spec)[i]));
    }
    SameKindsSameLast(spec, r);
    SameKindsSameLast(r, spec);
  }

  lemma SameKindsSameLast(a: ListenerType, b: ListenerType)
    requires |MatchedOf(a)| == |MatchedOf(b)|
    requires forall i :: 0 <= i < |MatchedOf(a)| ==>
      MatchedOf(a)[i].matcher == MatchedOf(b)[i].matcher && MatchedOf(a)[i].MatchedHttp? == MatchedOf(b)[i].MatchedHttp?
    ensures LastIsHttp(a) ==> LastIsHttp(b)
  {
    var ms, ns := MatchedOf(a), MatchedOf(b);
    forall i, k | LastIsHttp(a) && 0 <= i < |ns| && ns[i].MatchedHttp? && IsLastWith(ns, ns[i].matcher, k) ensures ns[k].MatchedHttp? {
      assert IsLastWith(ms, ms[i].matcher, k);
    }
  }

  ghost predicate StrippedListeners(reports: Reports, ls: seq<Listener>) {
    && AllAccepted(reports, ls) && DistinctNames(ls)
    && forall i :: 0 <= i < |ls| ==> StrippedType(reports, ls[i].spec)
  }

  ghost predicate AllLastHttp(ls: seq<Listener>) {
    forall i :: 0 <= i < |ls| ==> LastIsHttp(ls[i].spec)
  }

  lemma StripGivesStripped(reports: Reports, ls: seq<Listener>)
    requires DistinctNames(ls)
    ensures StrippedListeners(reports, Strip(reports, ls))
  {
    var all := StripListeners(reports, ls);
    var picked := Pick(reports, all, true);
    PickMembers(reports, all, true);
    PickDistinct(reports, all, true);
    SortMembers(picked);
    SortKeepsNames(picked);
    var r := Sort(picked);
    forall i | 0 <= i < |r| ensures StrippedType(reports, r[i].spec) {
      var j :| 0 <= j < |all| && all[j] == r[i];
      StripTypeIsStripped(reports, ls[j].spec);
    }
  }

  lemma StrippedFrom(reports: Reports, ls: seq<Listener>, i: int) returns (j: int)
    requires 0 <= i < |Strip(reports, ls)|
    ensures 0 <= j < |ls| && Accepted(reports, ls[j].metadata) && Strip(reports, ls)[i].spec == StripType(reports, ls[j].spec)
  {
    hide StripType, Accepted, Pick;
    var all := StripListeners(reports, ls);
    PickMembers(reports, all, true);
    SortMembers(Pick(reports, all, true));
    j :| 0 <= j < |all| && all[j] == Strip(reports, ls)[i];
  }

  lemma StrippedTo(reports: Reports, ls: seq<Listener>, j: int) returns (i: int)
    requires 0 <= j < |ls| && Accepted(reports, ls[j].metadata)
    ensures 0 <= i < |Strip(reports, ls)| && Strip(reports, ls)[i].spec == StripType(reports, ls[j].spec)
  {
    hide StripType, Accepted, Pick;
    var all := StripListeners(reports, ls);
    PickMembers(reports, all, true);
    SortMembers(Pick(reports, all, true));
    assert all[j] in all && all[j].metadata == ls[j].metadata;
    i :| 0 <= i < |Strip(reports, ls)| && Strip(reports, ls)[i] == all[j];
  }

  /** Stripping keeps exactly the accepted listeners, with matchers and kinds as they were. */
  lemma StripKeepsLastHttp(reports: Reports, ls: seq<Listener>)
    ensures AllLastHttp(Strip(reports, ls)) <==> forall i :: 0 <= i < |ls| && Accepted(reports, ls[i].metadata) ==> LastIsHttp(ls[i].spec)
  {
    hide LastIsHttp, StripType, Strip, Accepted;
    var r := Strip(reports, ls);
    if forall j :: 0 <= j < |ls| && Accepted(reports, ls[j].metadata) ==> LastIsHttp(ls[j].spec) {
      forall i | 0 <= i < |r| ensures LastIsHttp(r[i].spec) {
        var j := StrippedFrom(reports, ls, i);
        StripTypeIsStripped(reports, ls[j].spec);
      }
    }
    if AllLastHttp(r) {
      forall j | 0 <= j < |ls| && Accepted(reports, ls[j].metadata) ensures LastIsHttp(ls[j].spec) {
        var i := StrippedTo(reports, ls, j);
        StripTypeIsStripped(reports, ls[j].spec);
      }
    }
  }

  /** The listener at position i of `desired` is found again, grafted, in the result. */
  lemma LookupGrafted(reports: Reports, original: seq<Listener>, desired: seq<Listener>, i: nat)
    requires DistinctNames(desired) && i < |desired|
    ensures Lookup(Transition(reports, original, desired), desired[i].name) == Some(GraftListener(reports, original, desired[i]))
  {
    var grafted, kept := GraftListeners(reports, original, desired), Pick(reports, original, false);
    var name := desired[i].name;
    assert forall j :: 0 <= j < |desired| ==> grafted[j].name == desired[j].name;
    LookupUnique(grafted, i);
    SortKeepsNames(grafted + kept);
    LookupIsNamed(grafted, name);
    LookupIsNamed(grafted + kept, name);
    NamedConcat(grafted, kept, name);
  }

  lemma GraftListenerIdempotent(reports: Reports, original: seq<Listener>, desired: seq<Listener>, i: nat)
    requires StrippedListeners(reports, desired) && i < |desired| && LastIsHttp(desired[i].spec)
    ensures GraftListener(reports, Transition(reports, original, desired), desired[i]) == GraftListener(reports, original, desired[i])
  {
    LookupGrafted(reports, original, desired, i);
    var d := desired[i];
    var stored := match Lookup(original, d.name) case None => Tcp("") case Some(o) => o.spec;
    GraftFromNothing(reports, d.spec);
    GraftTypeIdempotent(reports, stored, d.spec);
  }

  /** The result of a second transition is the first one exactly when every grafted listener comes out the same. */
  lemma TransitionAgain(reports: Reports, original: seq<Listener>, desired: seq<Listener>)
    requires StrippedListeners(reports, desired)
    ensures var once := Transition(reports, original, desired);
      Transition(reports, once, desired) == once <==>
      forall i :: 0 <= i < |desired| ==> GraftListener(reports, once, desired[i]) == GraftListener(reports, original, desired[i])
  {
    hide GraftListener;
    var once := Transition(reports, original, desired);
    var grafted, kept := GraftListeners(reports, original, desired), Pick(reports, original, false);
    if Transition(reports, once, desired) == once {
      forall i | 0 <= i < |desired| ensures GraftListener(reports, once, desired[i]) == GraftListener(reports, original, desired[i]) {
        LookupGrafted(reports, original, desired, i);
        LookupGrafted(reports, once, desired, i);
      }
    }
    if forall i :: 0 <= i < |desired| ==> GraftListener(reports, once, desired[i]) == GraftListener(reports, original, desired[i]) {
      assert GraftListeners(reports, once, desired) == grafted;
      GraftedAreAccepted(reports, original, desired);
      RejectedOfGraft(reports, original, grafted);
      SortAbsorbs(grafted, kept);
    }
  }

  lemma GraftedAreAccepted(reports: Reports, original: seq<Listener>, desired: seq<Listener>)
    requires AllAccepted(reports, desired)
    ensures AllAccepted(reports, GraftListeners(reports, original, desired))
  {
    var grafted := GraftListeners(reports, original, desired);
    forall x | x in grafted ensures Accepted(reports, x.metadata) {
      var i :| 0 <= i < |grafted| && grafted[i] == x;
      assert desired[i] in desired;
    }
  }

  // ---- when nothing is in error ----

  lemma NothingRejected<T>(reports: Reports, s: seq<Object<T>>)
    requires NothingErrored(reports)
    ensures Pick(reports, s, false) == []
  {
    PickUniform(reports, s, true);
  }

  lemma GraftWithoutErrors(reports: Reports, original: ListenerType, desired: ListenerType)
    requires NothingErrored(reports) && StrippedType(reports, desired)
    ensures GraftType(reports, original, desired) == desired
  {
    match desired {
      case Http(http) =>
        NothingRejected(reports, HttpVirtualHosts(original));
        GraftNothing(reports, http.virtualHosts);
      case Hybrid(ms) =>
        forall i | 0 <= i < |ms| ensures GraftMatched(reports, MatchedOf(original), ms[i]) == ms[i] {
          assert MatchedOf(desired)[i] == ms[i];
          if ms[i].MatchedHttp? {
            NothingRejected(reports, StoredHosts(MatchedOf(original), ms[i].matcher));
            GraftNothing(reports, ms[i].http.virtualHosts);
          }
        }
      case Aggregate(_, _) =>
      case Tcp(_) =>
    }
  }

  lemma GraftListenerWithoutErrors(reports: Reports, original: seq<Listener>, d: Listener)
    requires NothingErrored(reports) && StrippedType(reports, d.spec)
    ensures GraftListener(reports, original, d) == d
  {
    hide GraftType;
    if Lookup(original, d.name).Some? {
      GraftWithoutErrors(reports, Lookup(original, d.name).value.spec, d.spec);
    }
  }

  // ---- when an HTTP matched listener is shadowed by a TCP one ----

  /** A stored listener with one virtual host, generated from `key`, under `matcher`. */
  function StoredUnder(name: string, matcher: Matcher, key: SourceKey): Listener {
    var host := Object("", StaticMeta([SourceRef(key.kind, key.name, key.namespace, 0)]), VirtualHostSpec(""));
    Object(name, NoMetadata, Hybrid([MatchedHttp(matcher, HttpListener([host], ""))]))
  }

  lemma RejectedHostIsPicked(reports: Reports, matcher: Matcher, key: SourceKey)
    requires Errored(reports, key)
    ensures var hosts := StoredHosts(MatchedOf(StoredUnder("", matcher, key).spec), matcher);
      |hosts| == 1 && Pick(reports, hosts, false) == hosts
  {
    var ms := MatchedOf(StoredUnder("", matcher, key).spec);
    assert IsLastWith(ms, matcher, 0);
    StoredHostsAt(ms, matcher, 0);
    var host := ms[0].http.virtualHosts[0];
    assert KeyOf(host.metadata.sources[0]) == key;
    assert key in SourceKeys(host.metadata);
    PickUniform(reports, [host], false);
  }

  /** The second graft looks into the TCP matched listener and drops what the first one kept. */
  lemma ShadowedGraftIsDropped(reports: Reports, desired: ListenerType, i: int, k: int, name: string, key: SourceKey)
    requires Errored(reports, key) && StrippedType(reports, desired) && 0 <= i < |MatchedOf(desired)| && MatchedOf(desired)[i].MatchedHttp?
    requires IsLastWith(MatchedOf(desired), MatchedOf(desired)[i].matcher, k) && MatchedOf(desired)[k].MatchedTcp?
    ensures var once := GraftType(reports, StoredUnder(name, MatchedOf(desired)[i].matcher, key).spec, desired);
      GraftType(reports, once, desired) != once
  {
    var ms, matcher := MatchedOf(desired), MatchedOf(desired)[i].matcher;
    var original := StoredUnder(name, matcher, key).spec;
    var once := GraftType(reports, original, desired);
    RejectedHostIsPicked(reports, matcher, key);
    assert MatchedOf(original) == MatchedOf(StoredUnder("", matcher, key).spec);
    var first := once.matched[i].http.virtualHosts;
    SortMembers(ms[i].http.virtualHosts + Pick(reports, StoredHosts(MatchedOf(original), matcher), false));
    assert |first| == |ms[i].http.virtualHosts| + 1;
    assert IsLastWith(once.matched, matcher, k);
    StoredHostsAt(once.matched, matcher, k);
    GraftNothing(reports, ms[i].http.virtualHosts);
    assert GraftMatched(reports, once.matched, ms[i]) == ms[i];
  }

  // ---- exactly when a second transition changes nothing ----

  lemma TransitionIdempotent(reports: Reports, original: seq<Listener>, desired: seq<Listener>)
    requires StrippedListeners(reports, desired) && (NothingErrored(reports) || AllLastHttp(desired))
    ensures Transition(reports, Transition(reports, original, desired), desired) == Transition(reports, original, desired)
  {
    hide Transition, GraftListener;
    var once := Transition(reports, original, desired);
    TransitionAgain(reports, original, desired);
    forall i | 0 <= i < |desired| ensures GraftListener(reports, once, desired[i]) == GraftListener(reports, original, desired[i]) {
      if NothingErrored(reports) {
        GraftListenerWithoutErrors(reports, original, desired[i]);
        GraftListenerWithoutErrors(reports, once, desired[i]);
      } else {
        GraftListenerIdempotent(reports, original, desired, i);
      }
    }
  }

  ghost predicate IdempotentOn(reports: Reports, desired: seq<Listener>) {
    forall original :: Transition(reports, Transition(reports, original, desired), desired) == Transition(reports, original, desired)
  }

  lemma ShadowingBreaksIdempotence(reports: Reports, desired: seq<Listener>, n: int, i: int, k: int, key: SourceKey)
    requires StrippedListeners(reports, desired) && 0 <= n < |desired| && Errored(reports, key)
    requires var ms := MatchedOf(desired[n].spec);
      0 <= i < |ms| && ms[i].MatchedHttp? && IsLastWith(ms, ms[i].matcher, k) && ms[k].MatchedTcp?
    ensures var original := [StoredUnder(desired[n].name, MatchedOf(desired[n].spec)[i].matcher, key)];
      Transition(reports, Transition(reports, original, desired), desired) != Transition(reports, original, desired)
  {
    hide Transition;
    var d := desired[n];
    var stored := StoredUnder(d.name, MatchedOf(d.spec)[i].matcher, key);
    var once := Transition(reports, [stored], desired);
    ShadowedGraftIsDropped(reports, d.spec, i, k, d.name, key);
    LookupGrafted(reports, [stored], desired, n);
    TransitionAgain(reports, [stored], desired);
    assert GraftListener(reports, [stored], d).spec == GraftType(reports, stored.spec, d.spec);
    assert GraftListener(reports, once, d).spec == GraftType(reports, GraftType(reports, stored.spec, d.spec), d.spec);
  }

  /** A second transition is a no-op over every stored proxy exactly when nothing is in error, or no HTTP matched listener
      shares its matcher with a later last TCP one. */
  lemma TransitionIdempotentIff(reports: Reports, desired: seq<Listener>)
    requires StrippedListeners(reports, desired)
    ensures IdempotentOn(reports, desired) <==> NothingErrored(reports) || AllLastHttp(desired)
  {
    hide Transition, StrippedListeners;
    if NothingErrored(reports) || AllLastHttp(desired) {
      forall original ensures Transition(reports, Transition(reports, original, desired), desired) == Transition(reports, original, desired) {
        TransitionIdempotent(reports, original, desired);
      }
    } else {
      var key :| Errored(reports, key);
      var n :| 0 <= n < |desired| && !LastIsHttp(desired[n].spec);
      var ms := MatchedOf(desired[n].spec);
      var i, k :| 0 <= i < |ms| && ms[i].MatchedHttp? && IsLastWith(ms, ms[i].matcher, k) && !ms[k].MatchedHttp?;
      ShadowingBreaksIdempotence(reports, desired, n, i, k, key);
    }
  }

  ghost predicate RoundRepeats(reports: Reports, desired: seq<Listener>) {
    forall stored :: Reconcile(reports, Some(Reconcile(reports, stored, desired)), desired) == Reconcile(reports, stored, desired)
  }

  /** A second round with the same input is a no-op, over every store, created or updated, exactly when nothing is in error
      or every accepted listener is free of such sharing. */
  lemma ReconcileIdempotentIff(reports: Reports, desired: seq<Listener>)
    requires DistinctNames(desired)
    ensures RoundRepeats(reports, desired) <==>
      NothingErrored(reports) || forall i :: 0 <= i < |desired| && Accepted(reports, desired[i].metadata) ==> LastIsHttp(desired[i].spec)
  {
    hide Transition, Strip, StrippedListeners, AllLastHttp, NothingErrored, LastIsHttp;
    var stripped := Strip(reports, desired);
    StripGivesStripped(reports, desired);
    StripKeepsLastHttp(reports, desired);
    TransitionIdempotentIff(reports, stripped);
    StripIsTransitionFromNothing(reports, desired);
    if IdempotentOn(reports, stripped) {
      forall stored ensures Reconcile(reports, Some(Reconcile(reports, stored, desired)), desired) == Reconcile(reports, stored, desired) {
        var original := StoredListeners(stored);
        assert Reconcile(reports, stored, desired) == Transition(reports, original, stripped);
      }
    }
    if RoundRepeats(reports, desired) {
      forall original ensures Transition(reports, Transition(reports, original, stripped), stripped) == Transition(reports, original, stripped) {
        var once := Transition(reports, original, stripped);
        assert once == Reconcile(reports, Some(original), desired);
        assert Reconcile(reports, Some(Reconcile(reports, Some(original), desired)), desired) == Reconcile(reports, Some(original), desired);
      }
    }
  }

  lemma StripIsTransitionFromNothing(reports: Reports, desired: seq<Listener>)
    ensures Transition(reports, [], Strip(reports, desired)) == Strip(reports, desired)
  {
    var stripped := Strip(reports, desired);
    SortIsStable(Pick(reports, StripListeners(reports, desired), true));
    SortOfSorted(stripped);
    assert GraftListeners(reports, [], stripped) == stripped;
    assert stripped + [] == stripped;
  }
}
