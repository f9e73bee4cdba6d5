/** The report map and the statuses built from it (projects/gateway2/reports/status.go, reporter.go). */
module StatusBuilder {
  import opened Common
  import opened Sequences
  import opened Attachment
  import opened Conditions

  datatype ListenerStatus = ListenerStatus(name: string, supportedKinds: seq<RouteGroupKind>, attachedRoutes: int, conditions: seq<Condition>)

  datatype GatewayStatus = GatewayStatus(conditions: seq<Condition>, listeners: seq<ListenerStatus>)

  /** `ParentRefKey`: section name and port do not take part. */
  datatype ParentRefKey = ParentRefKey(group: string, kind: string, resource: NamespacedName)

  datatype ParentStatus = ParentStatus(ref: ParentRef, controllerName: string, conditions: seq<Condition>)

  type ListenerReports = map<string, ListenerStatus>

  type ParentReports = map<ParentRefKey, seq<Condition>>

  // ---- listeners ----

  function ListenerOf(reports: ListenerReports, name: string): ListenerStatus {
    if name in reports then reports[name] else ListenerStatus(name, [], 0, [])
  }

  /** The conditions of the first stored listener of that name. */
  function StoredListenerConditions(stored: seq<ListenerStatus>, name: string): seq<Condition> {
    if stored == [] then []
    else if stored[0].name == name then stored[0].conditions
    else StoredListenerConditions(stored[1..], name)
  }

  function BuiltListener(report: ListenerStatus, name: string, stored: seq<ListenerStatus>, generation: int, now: nat): ListenerStatus {
    report.(conditions := FullReport(report.conditions, LISTENER_MANDATORY, StoredListenerConditions(stored, name), generation, now))
  }

  /** The reports and the listener statuses after a spec's listeners, in order; a report is overwritten with its result. */
  function BuildListeners(reports: ListenerReports, names: seq<string>, stored: seq<ListenerStatus>, generation: int, now: nat)
    : (ListenerReports, seq<ListenerStatus>)
  {
    if names == [] then (reports, [])
    else
      var n := |names| - 1;
      var (before, out) := BuildListeners(reports, names[..n], stored, generation, now);
      var l := BuiltListener(ListenerOf(before, names[n]), names[n], stored, generation, now);
      (before[names[n] := l], out + [l])
  }

  predicate DistinctListenerReports(reports: ListenerReports) {
    forall name :: name in reports ==> reports[name].name == name && DistinctKinds(reports[name].conditions)
  }

  lemma BuiltAgain(report: ListenerStatus, name: string, stored: seq<ListenerStatus>, generation: int, now: nat)
    requires DistinctKinds(report.conditions) && now > 0
    ensures var l := BuiltListener(report, name, stored, generation, now);
      BuiltListener(l, name, stored, generation, now) == l
  {
    hide FullReport, LISTENER_MANDATORY;
    RebuildIsFixpoint(report.conditions, LISTENER_MANDATORY, StoredListenerConditions(stored, name), generation, now, now);
  }

  /** Each spec listener, also one whose name repeats, gets the status built from its original report. */
  lemma {:induction false} EachListenerIsBuilt(reports: ListenerReports, names: seq<string>, stored: seq<ListenerStatus>, generation: int, now: nat)
    requires DistinctListenerReports(reports) && now > 0
    ensures var (after, out) := BuildListeners(reports, names, stored, generation, now);
      && |out| == |names|
      && (forall i :: 0 <= i < |names| ==> out[i] == BuiltListener(ListenerOf(reports, names[i]), names[i], stored, generation, now))
      && (forall name :: ListenerOf(after, name) ==
            if name in names then BuiltListener(ListenerOf(reports, name), name, stored, generation, now) else ListenerOf(reports, name))
      && after.Keys == reports.Keys + set name | name in names
  {
    hide BuiltListener, DistinctKinds;
    if names != [] {
      var n := |names| - 1;
      EachListenerIsBuilt(reports, names[..n], stored, generation, now);
      NoReportIsDistinct();
      BuiltAgain(ListenerOf(reports, names[n]), names[n], stored, generation, now);
      assert names == names[..n] + [names[n]];
    }
  }

  // ---- gateway reports ----

  class GatewayReport {
    var conditions: seq<Condition>
    var listeners: ListenerReports
    const observedGeneration: int

    constructor (generation: int)
      ensures conditions == [] && listeners == map[] && observedGeneration == generation
    {
      conditions, listeners, observedGeneration := [], map[], generation;
    }

    method Listener(name: string) returns (l: ListenerStatus)
      modifies this
      ensures conditions == old(conditions)
      ensures l == ListenerOf(old(listeners), name) && listeners == old(listeners)[name := l]
    {
      if name !in listeners {
        listeners := listeners[name := ListenerStatus(name, [], 0, [])];
      }
      l := listeners[name];
    }

    /** One spec listener: its report is completed, merged with the stored conditions and overwritten. */
    method BuildListenerStatus(name: string, stored: seq<ListenerStatus>, now: nat) returns (l: ListenerStatus)
      modifies this
      ensures conditions == old(conditions)
      ensures l == BuiltListener(ListenerOf(old(listeners), name), name, stored, observedGeneration, now)
      ensures listeners == old(listeners)[name := l]
    {
      hide LISTENER_MANDATORY, AddMissing, BuildConditions, StoredListenerConditions;
      l := Listener(name);
      l := l.(conditions := AddMissing(l.conditions, LISTENER_MANDATORY));
      var final := BuildFinalConditions(l.conditions, StoredListenerConditions(stored, name), observedGeneration, now);
      l := l.(conditions := final);
      listeners := listeners[name := l];
    }

    method BuildListenerStatuses(names: seq<string>, stored: seq<ListenerStatus>, now: nat) returns (out: seq<ListenerStatus>)
      modifies this
      ensures conditions == old(conditions)
      ensures (listeners, out) == BuildListeners(old(listeners), names, stored, observedGeneration, now)
    {
      hide BuiltListener;
      out := [];
      for i := 0 to |names|
        invariant conditions == old(conditions)
        invariant (listeners, out) == BuildListeners(old(listeners), names[..i], stored, observedGeneration, now)
      {
        assert names[..i + 1][..i] == names[..i];
        var l := BuildListenerStatus(names[i], stored, now);
        out := out + [l];
      }
      assert names[..|names|] == names;
    }

    method BuildStatus(names: seq<string>, stored: GatewayStatus, now: nat) returns (status: GatewayStatus)
      modifies this
      ensures conditions == AddMissing(old(conditions), GATEWAY_MANDATORY)
      ensures (listeners, status.listeners) == BuildListeners(old(listeners), names, stored.listeners, observedGeneration, now)
      ensures status.conditions == FullReport(old(conditions), GATEWAY_MANDATORY, stored.conditions, observedGeneration, now)
    {
      var finalListeners := BuildListenerStatuses(names, stored.listeners, now);
      conditions := AddMissing(conditions, GATEWAY_MANDATORY);
      var final := BuildFinalConditions(conditions, stored.conditions, observedGeneration, now);
      status := GatewayStatus(final, finalListeners);
    }
  }

  // ---- parents ----

  function GetParentRefKey(ref: ParentRef): ParentRefKey {
    ParentRefKey(OrEmpty(ref.group), OrEmpty(ref.kind), NamespacedName(OrEmpty(ref.namespace), ref.name))
  }

  /** The reference inferred from a key of the report, for a delegatee without parentRefs. */
  function InferredRef(key: ParentRefKey): ParentRef {
    ParentRef(Some(key.group), Some(key.kind), Some(key.resource.namespace), key.resource.name, None, None)
  }

  function ParentOf(reports: ParentReports, key: ParentRefKey): seq<Condition> {
    if key in reports then reports[key] else []
  }

  function StoredParentConditions(stored: seq<ParentStatus>, ref: ParentRef): seq<Condition> {
    if stored == [] then []
    else if stored[0].ref == ref then stored[0].conditions
    else StoredParentConditions(stored[1..], ref)
  }

  function BuiltParent(reports: ParentReports, ref: ParentRef, stored: seq<ParentStatus>, controller: string, generation: int, now: nat): ParentStatus {
    ParentStatus(ref, controller,
                 FullReport(ParentOf(reports, GetParentRefKey(ref)), PARENT_MANDATORY, StoredParentConditions(stored, ref), generation, now))
  }

  function KeysOf(refs: seq<ParentRef>): set<ParentRefKey> {
    set ref | ref in refs :: GetParentRefKey(ref)
  }

  /** The reports a build leaves: those of `refs` now carry their mandatory conditions, the others are as they were. */
  ghost predicate OnlyMissingAdded(reports: ParentReports, refs: seq<ParentRef>, after: ParentReports) {
    && after.Keys == reports.Keys + KeysOf(refs)
    && forall key :: key in after ==>
         after[key] == if key in KeysOf(refs) then AddMissing(ParentOf(reports, key), PARENT_MANDATORY) else reports[key]
  }

  class RouteReport {
    var parents: ParentReports
    const observedGeneration: int

    constructor (generation: int)
      ensures parents == map[] && observedGeneration == generation
    {
      parents, observedGeneration := map[], generation;
    }

    /** One parent: only its missing conditions are written back to the report. */
    method BuildParentStatus(ref: ParentRef, stored: seq<ParentStatus>, controller: string, now: nat) returns (p: ParentStatus)
      modifies this
      ensures p == BuiltParent(old(parents), ref, stored, controller, observedGeneration, now)
      ensures parents == old(parents)[GetParentRefKey(ref) := AddMissing(ParentOf(old(parents), GetParentRefKey(ref)), PARENT_MANDATORY)]
    {
      hide PARENT_MANDATORY, AddMissing, BuildConditions, StoredParentConditions, GetParentRefKey;
      var key := GetParentRefKey(ref);
      if key !in parents {
        parents := parents[key := []];
      }
      parents := parents[key := AddMissing(parents[key], PARENT_MANDATORY)];
      var final := BuildFinalConditions(parents[key], StoredParentConditions(stored, ref), observedGeneration, now);
      p := ParentStatus(ref, controller, final);
    }

    /** `order` is the order in which the report's keys happen to be enumerated. */
    method BuildStatus(specRefs: seq<ParentRef>, order: seq<ParentRefKey>, stored: seq<ParentStatus>, controller: string, now: nat)
      returns (status: seq<ParentStatus>)
      requires multiset(order) == multiset(parents.Keys)
      modifies this
      ensures OnlyMissingAdded(old(parents), RefsOf(specRefs, order), parents)
      ensures status == BuiltParents(old(parents), RefsOf(specRefs, order), stored, controller, observedGeneration, now)
    {
      hide AddMissing, PARENT_MANDATORY, BuildConditions, FullReport, GetParentRefKey, OnlyMissingAdded;
      var refs := specRefs;
      if refs == [] {
        refs := seq(|order|, i requires 0 <= i < |order| => InferredRef(order[i]));
      }
      status := [];
      NothingAdded(parents);
      for i := 0 to |refs|
        invariant OnlyMissingAdded(old(parents), refs[..i], parents)
        invariant |status| == i
        invariant forall j :: 0 <= j < i ==> status[j] == BuiltParent(old(parents), refs[j], stored, controller, observedGeneration, now)
      {
        ghost var before := parents;
        var p := BuildParentStatus(refs[i], stored, controller, now);
        SameBuilt(old(parents), refs[..i], before, refs[i], stored, controller, observedGeneration, now);
        AddedStep(old(parents), refs, i, before, parents);
        status := status + [p];
      }
      assert refs[..|refs|] == refs;
    }
  }

  /** The references a route's status is built for. */
  function RefsOf(specRefs: seq<ParentRef>, order: seq<ParentRefKey>): seq<ParentRef> {
    if specRefs != [] then specRefs else seq(|order|, i requires 0 <= i < |order| => InferredRef(order[i]))
  }

  function BuiltParents(reports: ParentReports, refs: seq<ParentRef>, stored: seq<ParentStatus>, controller: string, generation: int, now: nat): seq<ParentStatus> {
    seq(|refs|, i requires 0 <= i < |refs| => BuiltParent(reports, refs[i], stored, controller, generation, now))
  }

  lemma NothingAdded(reports: ParentReports)
    ensures OnlyMissingAdded(reports, [], reports)
  {
    assert KeysOf([]) == {};
  }

  /** A parent's status does not depend on whether its report was completed before. */
  lemma SameBuilt(reports: ParentReports, done: seq<ParentRef>, after: ParentReports, ref: ParentRef,
                  stored: seq<ParentStatus>, controller: string, generation: int, now: nat)
    requires OnlyMissingAdded(reports, done, after)
    ensures BuiltParent(after, ref, stored, controller, generation, now) == BuiltParent(reports, ref, stored, controller, generation, now)
    ensures var key := GetParentRefKey(ref);
      AddMissing(ParentOf(after, key), PARENT_MANDATORY) == AddMissing(ParentOf(reports, key), PARENT_MANDATORY)
  {
    hide AddMissing, PARENT_MANDATORY, GetParentRefKey, BuildConditions, KeysOf;
    AddMissingTwice(ParentOf(reports, GetParentRefKey(ref)), PARENT_MANDATORY);
  }

  lemma AddMissingTwice(cs: seq<Condition>, ms: seq<Mandatory>)
    ensures AddMissing(AddMissing(cs, ms), ms) == AddMissing(cs, ms)
  {
    AddMissingSpec(cs, ms);
    AddMissingSpec(AddMissing(cs, ms), ms);
  }

  lemma KeysOfSnoc(refs: seq<ParentRef>, i: nat)
    requires i < |refs|
    ensures KeysOf(refs[..i + 1]) == KeysOf(refs[..i]) + {GetParentRefKey(refs[i])}
  {
    assert refs[..i + 1] == refs[..i] + [refs[i]];
  }

  lemma AddedStep(reports: ParentReports, refs: seq<ParentRef>, i: nat, before: ParentReports, after: ParentReports)
    requires i < |refs| && OnlyMissingAdded(reports, refs[..i], before)
    requires after == before[GetParentRefKey(refs[i]) := AddMissing(ParentOf(reports, GetParentRefKey(refs[i])), PARENT_MANDATORY)]
    ensures OnlyMissingAdded(reports, refs[..i + 1], after)
  {
    hide AddMissing, PARENT_MANDATORY, KeysOf, GetParentRefKey;
    KeysOfSnoc(refs, i);
  }

  // ---- the report map ----

  class ReportMap {
    var gateways: map<NamespacedName, GatewayReport>
    var routes: map<NamespacedName, RouteReport>

    constructor ()
      ensures gateways == map[] && routes == map[]
    {
      gateways, routes := map[], map[];
    }

    /** `reporter.Gateway`: the report of a gateway, made on first use. */
    method Gateway(key: NamespacedName, generation: int) returns (report: GatewayReport)
      modifies this
      ensures routes == old(routes) && gateways == old(gateways)[key := report]
      ensures key in old(gateways) ==> report == old(gateways)[key]
      ensures key !in old(gateways) ==>
        fresh(report) && report.conditions == [] && report.listeners == map[] && report.observedGeneration == generation
    {
      if key !in gateways {
        var made := new GatewayReport(generation);
        gateways := gateways[key := made];
      }
      report := gateways[key];
    }

    method BuildGWStatus(key: NamespacedName, names: seq<string>, stored: GatewayStatus, now: nat) returns (status: Option<GatewayStatus>)
      modifies if key in gateways then {gateways[key]} else {}
      ensures status.Some? <==> key in gateways
      ensures status.Some? ==> var report := gateways[key];
        && report.conditions == AddMissing(old(report.conditions), GATEWAY_MANDATORY)
        && (report.listeners, status.value.listeners) == BuildListeners(old(report.listeners), names, stored.listeners, report.observedGeneration, now)
        && status.value.conditions == FullReport(old(report.conditions), GATEWAY_MANDATORY, stored.conditions, report.observedGeneration, now)
    {
      if key !in gateways {
        return None;
      }
      var s := gateways[key].BuildStatus(names, stored, now);
      status := Some(s);
    }

    /** None, which leaves the route's status alone, when the route was not met during translation. */
    method BuildRouteStatus(key: NamespacedName, specRefs: seq<ParentRef>, order: seq<ParentRefKey>, stored: seq<ParentStatus>,
                            controller: string, now: nat) returns (status: Option<seq<ParentStatus>>)
      requires key in routes ==> multiset(order) == multiset(routes[key].parents.Keys)
      modifies if key in routes then {routes[key]} else {}
      ensures status.Some? <==> key in routes
      ensures status.Some? ==> var report, refs := routes[key], RefsOf(specRefs, order);
        && OnlyMissingAdded(old(report.parents), refs, report.parents)
        && status.value == BuiltParents(old(report.parents), refs, stored, controller, report.observedGeneration, now)
    {
      if key !in routes {
        return None;
      }
      var s := routes[key].BuildStatus(specRefs, order, stored, controller, now);
      status := Some(s);
    }
  }

  // ---- promises ----

  /** One status per spec listener, in order and under its name, with kinds and route count as reported and every promise on
      its conditions; a listener without a report counts as reported empty. */
  lemma ListenerStatusesAreGood(reports: ListenerReports, names: seq<string>, stored: seq<ListenerStatus>, generation: int, now: nat)
    requires DistinctListenerReports(reports) && now > 0
    ensures var out := BuildListeners(reports, names, stored, generation, now).1;
      && |out| == |names|
      && forall i :: 0 <= i < |names| ==>
           && out[i].name == names[i]
           && out[i].supportedKinds == (if names[i] in reports then reports[names[i]].supportedKinds else [])
           && out[i].attachedRoutes == (if names[i] in reports then reports[names[i]].attachedRoutes else 0)
           && GoodStatus(if names[i] in reports then reports[names[i]].conditions else [], LISTENER_MANDATORY,
                         StoredListenerConditions(stored, names[i]), generation, now, out[i].conditions)
  {
    hide GoodStatus, LISTENER_MANDATORY, FullReport, BuildListeners, StoredListenerConditions;
    EachListenerIsBuilt(reports, names, stored, generation, now);
    forall i | 0 <= i < |names|
      ensures GoodStatus(if names[i] in reports then reports[names[i]].conditions else [], LISTENER_MANDATORY,
                         StoredListenerConditions(stored, names[i]), generation, now,
                         BuildListeners(reports, names, stored, generation, now).1[i].conditions)
    {
      NoReportIsDistinct();
      BuiltStatusIsGood(ListenerOf(reports, names[i]).conditions, LISTENER_MANDATORY, StoredListenerConditions(stored, names[i]), generation, now);
    }
  }

  /** The stored conditions of a listener are those of the first stored one of its name, none if there is none. */
  lemma {:induction false} StoredListenerIs(stored: seq<ListenerStatus>, name: string)
    ensures (forall k :: 0 <= k < |stored| ==> stored[k].name != name) ==> StoredListenerConditions(stored, name) == []
    ensures forall k :: 0 <= k < |stored| && stored[k].name == name && (forall i :: 0 <= i < k ==> stored[i].name != name) ==>
      StoredListenerConditions(stored, name) == stored[k].conditions
  {
    if stored != [] && stored[0].name != name {
      StoredListenerIs(stored[1..], name);
      assert forall k :: 0 < k < |stored| ==> stored[k] == stored[1..][k - 1];
    }
  }

  lemma {:induction false} StoredParentIs(stored: seq<ParentStatus>, ref: ParentRef)
    ensures (forall k :: 0 <= k < |stored| ==> stored[k].ref != ref) ==> StoredParentConditions(stored, ref) == []
    ensures forall k :: 0 <= k < |stored| && stored[k].ref == ref && (forall i :: 0 <= i < k ==> stored[i].ref != ref) ==>
      StoredParentConditions(stored, ref) == stored[k].conditions
  {
    if stored != [] && stored[0].ref != ref {
      StoredParentIs(stored[1..], ref);
      assert forall k :: 0 < k < |stored| ==> stored[k] == stored[1..][k - 1];
    }
  }

  /** Two references share a report exactly when group, kind, namespace and name agree, missing ones being empty; section
      name and port play no part. */
  lemma SharedReportIff(a: ParentRef, b: ParentRef)
    ensures GetParentRefKey(a) == GetParentRefKey(b) <==>
      && (a.group == b.group || {a.group, b.group} == {None, Some("")}) && (a.kind == b.kind || {a.kind, b.kind} == {None, Some("")})
      && (a.namespace == b.namespace || {a.namespace, b.namespace} == {None, Some("")}) && a.name == b.name
  {
    SameOrEmptyIff(a.group, b.group);
    SameOrEmptyIff(a.kind, b.kind);
    SameOrEmptyIff(a.namespace, b.namespace);
  }

  lemma SameOrEmptyIff(a: Option<string>, b: Option<string>)
    ensures OrEmpty(a) == OrEmpty(b) <==> a == b || {a, b} == {None, Some("")}
  {
    if {a, b} == {None, Some("")} {
      assert a in {None, Some("")} && b in {None, Some("")};
    }
  }

  lemma {:induction false} StoredIsFirst(stored: seq<ListenerStatus>, k: nat)
    requires k < |stored|
    requires forall i :: 0 <= i < k && stored[i].name == stored[k].name ==> stored[i] == stored[k]
    ensures StoredListenerConditions(stored, stored[k].name) == stored[k].conditions
  {
    if k > 0 && stored[0].name != stored[k].name {
      StoredIsFirst(stored[1..], k - 1);
    }
  }

  /** Once written to the gateway, the listener statuses come out the same at any later time, from the reports the build
      left and from the ones it began with. */
  lemma ListenerStatusesAreFixpoint(reports: ListenerReports, again: ListenerReports, names: seq<string>, stored: seq<ListenerStatus>,
                                    generation: int, now: nat, later: nat)
    requires DistinctListenerReports(reports) && now > 0 && later > 0
    requires again == reports || again == BuildListeners(reports, names, stored, generation, now).0
    ensures var out := BuildListeners(reports, names, stored, generation, now).1;
      BuildListeners(again, names, out, generation, later).1 == out
  {
    hide LISTENER_MANDATORY, FullReport, BuildListeners, StoredListenerConditions, DistinctKinds;
    var out := BuildListeners(reports, names, stored, generation, now).1;
    var rebuilt := BuildListeners(again, names, out, generation, later).1;
    EachListenerIsBuilt(reports, names, stored, generation, now);
    ReportsStayDistinct(reports, names, stored, generation, now);
    EachListenerIsBuilt(again, names, out, generation, later);
    forall i | 0 <= i < |names| ensures rebuilt[i] == out[i] {
      StoredIsFirst(out, i);
      NoReportIsDistinct();
      RebuildIsFixpoint(ListenerOf(reports, names[i]).conditions, LISTENER_MANDATORY, StoredListenerConditions(stored, names[i]),
                        generation, now, later);
    }
  }

  lemma ReportsStayDistinct(reports: ListenerReports, names: seq<string>, stored: seq<ListenerStatus>, generation: int, now: nat)
    requires DistinctListenerReports(reports) && now > 0
    ensures DistinctListenerReports(BuildListeners(reports, names, stored, generation, now).0)
  {
    hide BuildListeners, LISTENER_MANDATORY, FullReport, DistinctKinds;
    var after := BuildListeners(reports, names, stored, generation, now).0;
    EachListenerIsBuilt(reports, names, stored, generation, now);
    forall name | name in after ensures after[name].name == name && DistinctKinds(after[name].conditions) {
      assert after[name] == ListenerOf(after, name);
      NoReportIsDistinct();
      BuiltIsDistinct(ListenerOf(reports, name), name, stored, generation, now);
    }
  }

  lemma BuiltIsDistinct(report: ListenerStatus, name: string, stored: seq<ListenerStatus>, generation: int, now: nat)
    requires DistinctKinds(report.conditions)
    ensures DistinctKinds(BuiltListener(report, name, stored, generation, now).conditions)
  {
    hide LISTENER_MANDATORY, FullReport;
    BuiltStatusIsGood(report.conditions, LISTENER_MANDATORY, StoredListenerConditions(stored, name), generation, now);
  }

  predicate DistinctParentReports(reports: ParentReports) {
    forall key :: key in reports ==> DistinctKinds(reports[key])
  }

  /** One status per reference, in order, under the reference and the controller, with every promise on its conditions. */
  lemma ParentStatusesAreGood(reports: ParentReports, refs: seq<ParentRef>, stored: seq<ParentStatus>, controller: string, generation: int, now: nat)
    requires DistinctParentReports(reports)
    ensures var out := BuiltParents(reports, refs, stored, controller, generation, now);
      && |out| == |refs|
      && forall i :: 0 <= i < |refs| ==>
           && out[i].ref == refs[i] && out[i].controllerName == controller
           && var key := GetParentRefKey(refs[i]);
           GoodStatus(if key in reports then reports[key] else [], PARENT_MANDATORY, StoredParentConditions(stored, refs[i]), generation, now, out[i].conditions)
  {
    hide GoodStatus, PARENT_MANDATORY, FullReport, StoredParentConditions, GetParentRefKey, DistinctKinds;
    var out := BuiltParents(reports, refs, stored, controller, generation, now);
    forall i | 0 <= i < |refs|
      ensures var key := GetParentRefKey(refs[i]);
        GoodStatus(if key in reports then reports[key] else [], PARENT_MANDATORY, StoredParentConditions(stored, refs[i]), generation, now, out[i].conditions)
    {
      NoReportIsDistinct();
      BuiltStatusIsGood(ParentOf(reports, GetParentRefKey(refs[i])), PARENT_MANDATORY, StoredParentConditions(stored, refs[i]), generation, now);
    }
  }

  lemma NoReportIsDistinct()
    ensures DistinctKinds([])
  {
  }

  lemma {:induction false} StoredParentIsFirst(stored: seq<ParentStatus>, k: nat)
    requires k < |stored|
    requires forall i :: 0 <= i < k && stored[i].ref == stored[k].ref ==> stored[i] == stored[k]
    ensures StoredParentConditions(stored, stored[k].ref) == stored[k].conditions
  {
    if k > 0 && stored[0].ref != stored[k].ref {
      StoredParentIsFirst(stored[1..], k - 1);
    }
  }

  /** Rebuilding one parent against statuses that hold it. */
  lemma ParentRebuilt(reports: ParentReports, again: ParentReports, refs: seq<ParentRef>, ref: ParentRef, stored: seq<ParentStatus>,
                      controller: string, generation: int, now: nat, later: nat)
    requires DistinctParentReports(reports) && ref in refs
    requires again == reports || exists done :: OnlyMissingAdded(reports, done, again)
    ensures var out := BuiltParents(reports, refs, stored, controller, generation, now);
      BuiltParent(again, ref, out, controller, generation, later) == BuiltParent(reports, ref, stored, controller, generation, now)
  {
    hide PARENT_MANDATORY, FullReport, StoredParentConditions, GetParentRefKey, DistinctKinds, OnlyMissingAdded, AddMissing;
    var out := BuiltParents(reports, refs, stored, controller, generation, now);
    var i :| 0 <= i < |refs| && refs[i] == ref;
    if again != reports {
      var done :| OnlyMissingAdded(reports, done, again);
      SameBuilt(reports, done, again, ref, out, controller, generation, later);
    }
    StoredParentIsFirst(out, i);
    NoReportIsDistinct();
    RebuildIsFixpoint(ParentOf(reports, GetParentRefKey(ref)), PARENT_MANDATORY, StoredParentConditions(stored, ref), generation, now, later);
  }

  // ---- two enumerations of one map ----

  lemma SameMembers<T>(s: seq<T>, keys: set<T>)
    requires multiset(s) == multiset(keys)
    ensures forall x :: x in s <==> x in keys
  {
    forall x ensures x in s <==> x in keys {
      assert x in s <==> x in multiset(s);
    }
  }

  /** The keys a build adds for a route without parentRefs are already there. */
  lemma InferredKeys(reports: ParentReports, order: seq<ParentRefKey>)
    requires multiset(order) == multiset(reports.Keys)
    ensures KeysOf(RefsOf([], order)) == reports.Keys
  {
    SameMembers(order, reports.Keys);
    var refs := RefsOf([], order);
    forall key | key in reports.Keys ensures key in KeysOf(refs) {
      var i :| 0 <= i < |order| && order[i] == key;
      assert refs[i] in refs && GetParentRefKey(refs[i]) == key;
    }
  }

  lemma RefsPermute(specRefs: seq<ParentRef>, order1: seq<ParentRefKey>, order2: seq<ParentRefKey>)
    requires specRefs == [] ==> multiset(order1) == multiset(order2)
    ensures multiset(RefsOf(specRefs, order1)) == multiset(RefsOf(specRefs, order2))
    ensures RefsOf(specRefs, order1) == RefsOf(specRefs, order2) <==> specRefs != [] || order1 == order2
  {
    if specRefs == [] {
      var r1, r2 := RefsOf([], order1), RefsOf([], order2);
      assert r1 == Mapped(InferredRef, order1) && r2 == Mapped(InferredRef, order2);
      MappedPermutes(InferredRef, order1, order2);
      if r1 == r2 {
        forall i | 0 <= i < |order1| ensures order1[i] == order2[i] {
          assert r1[i] == r2[i];
        }
      }
    }
  }

  /** The same for the parents of a route, where a route without parentRefs enumerates the keys of its report in any order,
      in another one at the next build; `again` is the report as it was or as the build left it. The same statuses come out,
      in the order of the second enumeration, so the result is equal exactly when the route has parentRefs or the orders agree. */
  lemma ParentStatusesAreFixpoint(reports: ParentReports, again: ParentReports, specRefs: seq<ParentRef>,
                                  order1: seq<ParentRefKey>, order2: seq<ParentRefKey>, stored: seq<ParentStatus>,
                                  controller: string, generation: int, now: nat, later: nat)
    requires DistinctParentReports(reports)
    requires multiset(order1) == multiset(reports.Keys) && multiset(order2) == multiset(again.Keys)
    requires again == reports || OnlyMissingAdded(reports, RefsOf(specRefs, order1), again)
    ensures var refs1, refs2 := RefsOf(specRefs, order1), RefsOf(specRefs, order2);
      var out := BuiltParents(reports, refs1, stored, controller, generation, now);
      var rebuilt := BuiltParents(again, refs2, out, controller, generation, later);
      && rebuilt == BuiltParents(reports, refs2, stored, controller, generation, now)
      && multiset(rebuilt) == multiset(out)
      && (rebuilt == out <==> specRefs != [] || order1 == order2)
  {
    hide RefsOf, KeysOf, BuiltParent, DistinctParentReports;
    var refs1, refs2 := RefsOf(specRefs, order1), RefsOf(specRefs, order2);
    var out := BuiltParents(reports, refs1, stored, controller, generation, now);
    var rebuilt := BuiltParents(again, refs2, out, controller, generation, later);
    if specRefs == [] {
      InferredKeys(reports, order1);
      assert again.Keys == reports.Keys;
    }
    RefsPermute(specRefs, order1, order2);
    forall i | 0 <= i < |refs2|
      ensures BuiltParent(again, refs2[i], out, controller, generation, later) == BuiltParent(reports, refs2[i], stored, controller, generation, now)
    {
      assert refs2[i] in multiset(refs2);
      ParentRebuilt(reports, again, refs1, refs2[i], stored, controller, generation, now, later);
    }
    var f := (ref: ParentRef) => BuiltParent(reports, ref, stored, controller, generation, now);
    assert out == Mapped(f, refs1) && rebuilt == Mapped(f, refs2);
    MappedPermutes(f, refs1, refs2);
    if rebuilt == out {
      BuiltParentsKeepRefs(reports, refs1, refs2, stored, controller, generation, now);
    }
  }

  lemma BuiltParentsKeepRefs(reports: ParentReports, refs1: seq<ParentRef>, refs2: seq<ParentRef>, stored: seq<ParentStatus>,
                             controller: string, generation: int, now: nat)
    ensures BuiltParents(reports, refs1, stored, controller, generation, now) == BuiltParents(reports, refs2, stored, controller, generation, now)
       <==> refs1 == refs2
  {
    hide FullReport;
    var p1 := BuiltParents(reports, refs1, stored, controller, generation, now);
    var p2 := BuiltParents(reports, refs2, stored, controller, generation, now);
    if p1 == p2 {
      assert |refs1| == |p1| == |p2| == |refs2|;
      forall i | 0 <= i < |refs1| ensures refs1[i] == refs2[i] {
        assert p1[i].ref == refs1[i] && p2[i].ref == refs2[i];
      }
    }
  }
}
