/** The status syncer (projects/gateway2/status/status_syncer.go): which proxy reports reach which plugin registry. */
module StatusSyncer {
  import opened Common
  import opened Sequences

  /** The plugin registry created for one sync. */
  type Registry = nat

  /** The sync-id annotation of a reported proxy. */
  datatype SyncAnnotation = Missing | Unparsable | SyncId(id: int)

  datatype ProxyReport = ProxyReport(key: NamespacedName, annotation: SyncAnnotation, fromGatewayApi: bool, content: string)

  /** The three maps behind the lock. A Go map entry that is nil is an absent one: lists are never stored as nil. */
  datatype Maps = Maps(registryPerSync: map<nat, Registry>, resyncsPerProxy: map<NamespacedName, nat>,
                       resyncsPerIteration: map<nat, seq<NamespacedName>>)

  const EMPTY := Maps(map[], map[], map[])

  // ---- queueing ----

  function IterationList(m: Maps, id: nat): seq<NamespacedName> {
    if id in m.resyncsPerIteration then m.resyncsPerIteration[id] else []
  }

  function QueueOne(m: Maps, key: NamespacedName, id: nat): Maps {
    m.(resyncsPerProxy := m.resyncsPerProxy[key := id],
       resyncsPerIteration := m.resyncsPerIteration[id := IterationList(m, id) + [key]])
  }

  function QueueKeys(m: Maps, keys: seq<NamespacedName>, id: nat): Maps {
    if keys == [] then m else QueueOne(QueueKeys(m, keys[..|keys| - 1], id), keys[|keys| - 1], id)
  }

  function Queued(m: Maps, keys: seq<NamespacedName>, registry: Registry, id: nat): Maps {
    var m' := QueueKeys(m, keys, id);
    m'.(registryPerSync := m'.registryPerSync[id := registry])
  }

  // ---- handling ----

  function FilterProxies(reports: seq<ProxyReport>): seq<ProxyReport> {
    if reports == [] then []
    else
      var last := reports[|reports| - 1];
      FilterProxies(reports[..|reports| - 1]) + if last.fromGatewayApi then [last] else []
  }

  /** Reports of other controllers are dropped, the order is kept. */
  lemma {:induction false} FilterProxiesIs(reports: seq<ProxyReport>)
    ensures FilterProxies(reports) == Filter((r: ProxyReport) => r.fromGatewayApi, reports)
  {
    if reports != [] {
      FilterProxiesIs(reports[..|reports| - 1]);
    }
  }

  /** The id a report is handled under. The variable outlives the loop body, so a report without the annotation is
      handled under the id of the report before it. */
  function EffectiveId(previous: int, r: ProxyReport): int {
    match r.annotation
    case Missing => previous
    case Unparsable => 0
    case SyncId(id) => id
  }

  function PendingId(m: Maps, key: NamespacedName): nat {
    if key in m.resyncsPerProxy then m.resyncsPerProxy[key] else 0
  }

  /** Not older than what is pending for the proxy, and of an iteration that was queued. */
  predicate Admitted(m: Maps, r: ProxyReport, id: int) {
    PendingId(m, r.key) <= id && id in m.resyncsPerIteration
  }

  function Without(keys: seq<NamespacedName>, key: NamespacedName): seq<NamespacedName> {
    if keys == [] then []
    else
      var last := keys[|keys| - 1];
      Without(keys[..|keys| - 1], key) + if last != key then [last] else []
  }

  datatype Handling = Handling(maps: Maps, syncCount: int, toReport: map<nat, seq<ProxyReport>>)

  function HandleOne(h: Handling, r: ProxyReport): Handling {
    var id := EffectiveId(h.syncCount, r);
    if !Admitted(h.maps, r, id) then h.(syncCount := id)
    else
      Handling(h.maps.(resyncsPerIteration := h.maps.resyncsPerIteration[id := Without(h.maps.resyncsPerIteration[id], r.key)],
                       resyncsPerProxy := h.maps.resyncsPerProxy - {r.key}),
               id,
               h.toReport[id := (if id in h.toReport then h.toReport[id] else []) + [r]])
  }

  /** The state after the first reports of a call. */
  function HandleAll(m: Maps, reports: seq<ProxyReport>): Handling {
    if reports == [] then Handling(m, 0, map[])
    else HandleOne(HandleAll(m, reports[..|reports| - 1]), reports[|reports| - 1])
  }

  /** One call into the status plugins of a registry. */
  datatype Application = Application(registry: Registry, reports: seq<ProxyReport>)

  function Applied(m: Maps, toReport: map<nat, seq<ProxyReport>>): map<nat, Application> {
    map id | id in toReport && id in m.registryPerSync :: Application(m.registryPerSync[id], toReport[id])
  }

  /** Registries are dropped only when no iteration is known at all. */
  function CleanedUp(m: Maps, toReport: map<nat, seq<ProxyReport>>): Maps {
    if m.resyncsPerIteration == map[] then m.(registryPerSync := m.registryPerSync - toReport.Keys) else m
  }

  /** The calls made once the ids outside `todo` have been processed. */
  ghost predicate AppliedSoFar(registry: map<nat, Registry>, toReport: map<nat, seq<ProxyReport>>, todo: set<nat>, applied: map<nat, Application>) {
    && (forall id: nat :: id in applied <==> id in toReport && id !in todo && id in registry)
    && (forall id <- applied :: applied[id] == Application(registry[id], toReport[id]))
  }

  lemma NothingApplied(registry: map<nat, Registry>, noIteration: bool, toReport: map<nat, seq<ProxyReport>>)
    ensures AppliedSoFar(registry, toReport, toReport.Keys, map[])
    ensures RegistriesLeft(registry, noIteration, {}) == registry
  {
  }

  lemma ApplyStep(registry: map<nat, Registry>, toReport: map<nat, seq<ProxyReport>>, todo: set<nat>, applied: map<nat, Application>, id: nat)
    requires AppliedSoFar(registry, toReport, todo, applied) && id in todo && id in toReport
    ensures id in registry ==>
      AppliedSoFar(registry, toReport, todo - {id}, applied[id := Application(registry[id], toReport[id])])
    ensures id !in registry ==> AppliedSoFar(registry, toReport, todo - {id}, applied)
  {
  }

  function RegistriesLeft(registry: map<nat, Registry>, noIteration: bool, done: set<nat>): map<nat, Registry> {
    if noIteration then registry - done else registry
  }

  lemma LeaveOne(registry: map<nat, Registry>, noIteration: bool, done: set<nat>, id: nat)
    requires id !in done
    ensures var left := RegistriesLeft(registry, noIteration, done);
      && (id in left <==> id in registry) && (id in left ==> left[id] == registry[id])
      && RegistriesLeft(registry, noIteration, done + {id}) == if noIteration then left - {id} else left
  {
  }

  lemma AppliedIs(m: Maps, toReport: map<nat, seq<ProxyReport>>, applied: map<nat, Application>)
    requires AppliedSoFar(m.registryPerSync, toReport, {}, applied)
    ensures applied == Applied(m, toReport)
  {
  }

  lemma CleanedUpIs(m: Maps, toReport: map<nat, seq<ProxyReport>>)
    ensures CleanedUp(m, toReport)
         == m.(registryPerSync := RegistriesLeft(m.registryPerSync, m.resyncsPerIteration == map[], toReport.Keys))
  {
  }

  /** The next key of a map iteration, in no particular order. */
  method AnyOf(ids: set<nat>) returns (id: nat)
    requires ids != {}
    ensures id in ids
  {
    id :| id in ids;
  }

  // ---- the code ----

  class Factory {
    var registryPerSync: map<nat, Registry>
    var resyncsPerProxy: map<NamespacedName, nat>
    var resyncsPerIteration: map<nat, seq<NamespacedName>>

    ghost function Value(): Maps
      reads this
    {
      Maps(registryPerSync, resyncsPerProxy, resyncsPerIteration)
    }

    constructor ()
      ensures Value() == EMPTY
    {
      registryPerSync, resyncsPerProxy, resyncsPerIteration := map[], map[], map[];
    }

    method QueueStatusForProxies(keys: seq<NamespacedName>, registry: Registry, totalSyncCount: nat)
      modifies this
      ensures Value() == Queued(old(Value()), keys, registry, totalSyncCount)
    {
      for i := 0 to |keys|
        invariant Value() == QueueKeys(old(Value()), keys[..i], totalSyncCount)
      {
        assert keys[..i + 1][..i] == keys[..i];
        resyncsPerProxy := resyncsPerProxy[keys[i] := totalSyncCount];
        var list := if totalSyncCount in resyncsPerIteration then resyncsPerIteration[totalSyncCount] else [];
        resyncsPerIteration := resyncsPerIteration[totalSyncCount := list + [keys[i]]];
      }
      assert keys[..|keys|] == keys;
      registryPerSync := registryPerSync[totalSyncCount := registry];
    }

    method RemoveFromIteration(id: nat, key: NamespacedName)
      requires id in resyncsPerIteration
      modifies this`resyncsPerIteration
      ensures resyncsPerIteration == old(resyncsPerIteration)[id := Without(old(resyncsPerIteration)[id], key)]
    {
      var list := resyncsPerIteration[id];
      var updatedList: seq<NamespacedName> := [];
      for i := 0 to |list|
        invariant updatedList == Without(list[..i], key)
      {
        assert list[..i + 1][..i] == list[..i];
        if list[i] != key {
          updatedList := updatedList + [list[i]];
        }
      }
      assert list[..|list|] == list;
      resyncsPerIteration := resyncsPerIteration[id := updatedList];
    }

    method FilterByControllerName(reports: seq<ProxyReport>) returns (filtered: seq<ProxyReport>)
      ensures filtered == FilterProxies(reports)
    {
      filtered := [];
      for i := 0 to |reports|
        invariant filtered == FilterProxies(reports[..i])
      {
        assert reports[..i + 1][..i] == reports[..i];
        if reports[i].fromGatewayApi {
          filtered := filtered + [reports[i]];
        }
      }
      assert reports[..|reports|] == reports;
    }

    /** Iterating over the Go map `proxiesToReport` in any order gives the same calls per id. */
    method ApplyAll(toReport: map<nat, seq<ProxyReport>>) returns (applied: map<nat, Application>)
      modifies this`registryPerSync
      ensures applied == Applied(old(Value()), toReport)
      ensures Value() == CleanedUp(old(Value()), toReport)
    {
      hide Applied;
      hide CleanedUp;
      hide AppliedSoFar;
      hide RegistriesLeft;
      ghost var before, empty := registryPerSync, resyncsPerIteration == map[];
      var todo := toReport.Keys;
      ghost var done: set<nat> := {};
      applied := map[];
      NothingApplied(before, empty, toReport);
      while todo != {}
        invariant todo <= toReport.Keys && done == toReport.Keys - todo
        invariant AppliedSoFar(before, toReport, todo, applied)
        invariant registryPerSync == RegistriesLeft(before, empty, done)
      {
        var id := AnyOf(todo);
        LeaveOne(before, empty, done, id);
        ApplyStep(before, toReport, todo, applied, id);
        if id in registryPerSync {
          applied := applied[id := Application(registryPerSync[id], toReport[id])];
        }
        if |resyncsPerIteration| == 0 {
          registryPerSync := registryPerSync - {id};
        }
        todo, done := todo - {id}, done + {id};
      }
      assert done == toReport.Keys;
      AppliedIs(old(Value()), toReport, applied);
      CleanedUpIs(old(Value()), toReport);
    }

    method HandleProxyReports(reports: seq<ProxyReport>) returns (applied: map<nat, Application>)
      modifies this
      ensures var h := HandleAll(old(Value()), FilterProxies(reports));
        applied == Applied(h.maps, h.toReport) && Value() == CleanedUp(h.maps, h.toReport)
    {
      var toReport: map<nat, seq<ProxyReport>> := map[];
      var proxySyncCount: int := 0;
      var filtered := FilterByControllerName(reports);
      for i := 0 to |filtered|
        invariant Handling(Value(), proxySyncCount, toReport) == HandleAll(old(Value()), filtered[..i])
      {
        assert filtered[..i + 1][..i] == filtered[..i];
        var r := filtered[i];
        match r.annotation {
          case Missing =>
          case Unparsable => proxySyncCount := 0;
          case SyncId(id) => proxySyncCount := id;
        }
        if r.key in resyncsPerProxy && resyncsPerProxy[r.key] > proxySyncCount {
          continue;
        }
        if r.key !in resyncsPerProxy && 0 > proxySyncCount {
          continue;
        }
        if proxySyncCount !in resyncsPerIteration {
          continue;
        }
        RemoveFromIteration(proxySyncCount, r.key);
        toReport := toReport[proxySyncCount := (if proxySyncCount in toReport then toReport[proxySyncCount] else []) + [r]];
        resyncsPerProxy := resyncsPerProxy - {r.key};
      }
      assert filtered[..|filtered|] == filtered;
      applied := ApplyAll(toReport);
    }
  }

  // ---- the invariant of the three maps ----

  /** Each pending proxy is in its iteration's list, and each iteration with a list has its registry. */
  ghost predicate Inv(m: Maps) {
    && (forall key <- m.resyncsPerProxy :: key in IterationList(m, m.resyncsPerProxy[key]))
    && m.resyncsPerIteration.Keys <= m.registryPerSync.Keys
  }

  lemma {:induction false} QueueKeysPending(m: Maps, keys: seq<NamespacedName>, id: nat)
    requires forall key <- m.resyncsPerProxy :: key in IterationList(m, m.resyncsPerProxy[key])
    ensures var r := QueueKeys(m, keys, id);
      && (forall key <- r.resyncsPerProxy :: key in IterationList(r, r.resyncsPerProxy[key]))
      && r.resyncsPerIteration.Keys <= m.resyncsPerIteration.Keys + {id}
      && r.registryPerSync == m.registryPerSync
  {
    if keys != [] {
      var n := |keys| - 1;
      QueueKeysPending(m, keys[..n], id);
      var before := QueueKeys(m, keys[..n], id);
      var r := QueueOne(before, keys[n], id);
      forall key | key in r.resyncsPerProxy ensures key in IterationList(r, r.resyncsPerProxy[key]) {
        if key != keys[n] {
          assert key in IterationList(before, before.resyncsPerProxy[key]);
        }
      }
    }
  }

  lemma QueueKeepsInv(m: Maps, keys: seq<NamespacedName>, registry: Registry, id: nat)
    requires Inv(m)
    ensures Inv(Queued(m, keys, registry, id))
  {
    QueueKeysPending(m, keys, id);
    var q, r := QueueKeys(m, keys, id), Queued(m, keys, registry, id);
    forall key | key in r.resyncsPerProxy ensures key in IterationList(r, r.resyncsPerProxy[key]) {
      assert key in IterationList(q, q.resyncsPerProxy[key]);
    }
  }

  lemma {:induction false} WithoutMembers(keys: seq<NamespacedName>, key: NamespacedName)
    ensures forall k :: k in Without(keys, key) <==> k in keys && k != key
  {
    if keys != [] {
      var n := |keys| - 1;
      WithoutMembers(keys[..n], key);
      assert keys == keys[..n] + [keys[n]];
    }
  }

  lemma HandleOneKeepsInv(h: Handling, r: ProxyReport)
    requires Inv(h.maps)
    ensures Inv(HandleOne(h, r).maps)
    ensures HandleOne(h, r).maps.registryPerSync == h.maps.registryPerSync
    ensures HandleOne(h, r).maps.resyncsPerIteration.Keys == h.maps.resyncsPerIteration.Keys
  {
    var id, m, m' := EffectiveId(h.syncCount, r), h.maps, HandleOne(h, r).maps;
    if Admitted(m, r, id) {
      WithoutMembers(m.resyncsPerIteration[id], r.key);
      forall key | key in m'.resyncsPerProxy ensures key in IterationList(m', m'.resyncsPerProxy[key]) {
        assert key in IterationList(m, m.resyncsPerProxy[key]);
      }
    }
  }

  /** The state when report i gets its turn. */
  function Turn(m: Maps, reports: seq<ProxyReport>, i: nat): Handling
    requires i <= |reports|
  {
    HandleAll(m, reports[..i])
  }

  lemma {:induction false} HandleAllKeepsInv(m: Maps, reports: seq<ProxyReport>)
    requires Inv(m)
    ensures var h := HandleAll(m, reports);
      && Inv(h.maps) && h.maps.registryPerSync == m.registryPerSync
      && h.maps.resyncsPerIteration.Keys == m.resyncsPerIteration.Keys
      && h.toReport.Keys <= m.resyncsPerIteration.Keys
  {
    if reports != [] {
      var n := |reports| - 1;
      HandleAllKeepsInv(m, reports[..n]);
      HandleOneKeepsInv(HandleAll(m, reports[..n]), reports[n]);
    }
  }

  // ---- which reports reach the plugins ----

  ghost predicate AdmittedAt(m: Maps, reports: seq<ProxyReport>, i: nat, id: nat) {
    && i < |reports|
    && EffectiveId(Turn(m, reports, i).syncCount, reports[i]) == id
    && Admitted(Turn(m, reports, i).maps, reports[i], id)
  }

  ghost function ReportsFor(h: Handling, id: nat): seq<ProxyReport> {
    if id in h.toReport then h.toReport[id] else []
  }

  lemma GroupStep(h: Handling, r: ProxyReport, id: nat)
    ensures ReportsFor(HandleOne(h, r), id)
         == ReportsFor(h, id) + if EffectiveId(h.syncCount, r) == id && Admitted(h.maps, r, id) then [r] else []
  {
  }

  lemma AdmittedAtPrefix(m: Maps, reports: seq<ProxyReport>, n: nat, i: nat, id: nat)
    requires i < n <= |reports|
    ensures AdmittedAt(m, reports[..n], i, id) <==> AdmittedAt(m, reports, i, id)
  {
    assert reports[..n][..i] == reports[..i];
  }

  ghost predicate AnyAdmitted(m: Maps, reports: seq<ProxyReport>, id: nat, r: ProxyReport) {
    exists i: nat :: AdmittedAt(m, reports, i, id) && reports[i] == r
  }

  lemma AnyAdmittedSnoc(m: Maps, reports: seq<ProxyReport>, id: nat, r: ProxyReport)
    requires reports != []
    ensures var n := |reports| - 1;
      AnyAdmitted(m, reports, id, r) <==> AnyAdmitted(m, reports[..n], id, r) || (AdmittedAt(m, reports, n, id) && reports[n] == r)
  {
    hide HandleAll;
    hide Turn;
    hide Admitted;
    hide EffectiveId;
    var n := |reports| - 1;
    var init := reports[..n];
    if AnyAdmitted(m, init, id, r) {
      var i: nat :| AdmittedAt(m, init, i, id) && init[i] == r;
      AdmittedAtPrefix(m, reports, n, i, id);
    }
    if AnyAdmitted(m, reports, id, r) {
      var i: nat :| AdmittedAt(m, reports, i, id) && reports[i] == r;
      if i < n {
        AdmittedAtPrefix(m, reports, n, i, id);
        assert init[i] == r;
      }
    }
  }

  /** The group of `id` holds exactly the reports admitted under `id` when it was their turn. */
  lemma {:induction false} GroupIsExact(m: Maps, reports: seq<ProxyReport>, id: nat, r: ProxyReport)
    ensures r in ReportsFor(HandleAll(m, reports), id) <==> AnyAdmitted(m, reports, id, r)
  {
    hide HandleOne;
    hide Admitted;
    hide EffectiveId;
    if reports == [] {
      assert ReportsFor(HandleAll(m, reports), id) == [];
    } else {
      hide AnyAdmitted;
      hide ReportsFor;
      var n := |reports| - 1;
      GroupIsExact(m, reports[..n], id, r);
      GroupStep(HandleAll(m, reports[..n]), reports[n], id);
      AnyAdmittedSnoc(m, reports, id, r);
    }
  }

  /** Every application uses the registry stored under its id; its reports are exactly those admitted under that id, none
      of them older than what was pending for its proxy at its turn; a stamped report is admitted under its own stamp. */
  ghost predicate RightlyApplied(m: Maps, reports: seq<ProxyReport>, applied: map<nat, Application>) {
    && (forall id <- applied :: id in m.registryPerSync && applied[id].registry == m.registryPerSync[id])
    && (forall i: nat, id: nat :: AdmittedAt(m, reports, i, id) ==> id in applied && reports[i] in applied[id].reports)
    && (forall id: nat, r: ProxyReport :: id in applied && r in applied[id].reports ==> AnyAdmitted(m, reports, id, r))
    && (forall i: nat, id: nat :: AdmittedAt(m, reports, i, id) ==>
          PendingId(Turn(m, reports, i).maps, reports[i].key) <= id
          && (reports[i].annotation.SyncId? ==> reports[i].annotation.id == id))
  }

  lemma HandleAppliesRightly(m: Maps, reports: seq<ProxyReport>)
    requires Inv(m)
    ensures var h := HandleAll(m, reports); RightlyApplied(m, reports, Applied(h.maps, h.toReport))
  {
    hide HandleAll;
    hide Turn;
    var h := HandleAll(m, reports);
    var applied := Applied(h.maps, h.toReport);
    HandleAllKeepsInv(m, reports);
    assert applied.Keys == h.toReport.Keys;
    forall i: nat, id: nat | AdmittedAt(m, reports, i, id) ensures id in applied && reports[i] in applied[id].reports {
      GroupIsExact(m, reports, id, reports[i]);
    }
    forall id: nat, r: ProxyReport | id in applied && r in applied[id].reports
      ensures AnyAdmitted(m, reports, id, r)
    {
      GroupIsExact(m, reports, id, r);
    }
  }

  // ---- runs ----

  datatype Op = QueueOp(keys: seq<NamespacedName>, registry: Registry, id: nat) | HandleOp(reports: seq<ProxyReport>)

  function RunStep(m: Maps, op: Op): Maps {
    match op
    case QueueOp(keys, registry, id) => Queued(m, keys, registry, id)
    case HandleOp(reports) =>
      var h := HandleAll(m, FilterProxies(reports));
      CleanedUp(h.maps, h.toReport)
  }

  function After(ops: seq<Op>): Maps {
    if ops == [] then EMPTY else RunStep(After(ops[..|ops| - 1]), ops[|ops| - 1])
  }

  /** The sync ids are stamped by a counter. */
  ghost predicate IncreasingIds(ops: seq<Op>) {
    forall i, j :: 0 <= i < j < |ops| && ops[i].QueueOp? && ops[j].QueueOp? ==> ops[i].id < ops[j].id
  }

  /** `registry` was queued under `id`. */
  ghost predicate QueuedUnder(ops: seq<Op>, id: nat, registry: Registry) {
    exists i :: 0 <= i < |ops| && ops[i].QueueOp? && ops[i].id == id && ops[i].registry == registry
  }

  lemma HandleKeepsRegistries(m: Maps, reports: seq<ProxyReport>)
    requires Inv(m)
    ensures Inv(RunStep(m, HandleOp(reports))) && RunStep(m, HandleOp(reports)).registryPerSync == m.registryPerSync
  {
    HandleAllKeepsInv(m, FilterProxies(reports));
  }

  /** After any run the invariant holds, and the stored registries are exactly the queued ones: the clean-up branch
      never removes one. */
  lemma {:induction false} RunKeepsInv(ops: seq<Op>)
    requires IncreasingIds(ops)
    ensures Inv(After(ops))
    ensures forall id: nat, registry: Registry ::
      id in After(ops).registryPerSync && After(ops).registryPerSync[id] == registry <==> QueuedUnder(ops, id, registry)
  {
    if ops != [] {
      var n := |ops| - 1;
      var init, last := ops[..n], ops[n];
      assert forall i :: 0 <= i < n ==> init[i] == ops[i];
      RunKeepsInv(init);
      var m := After(init);
      match last {
        case QueueOp(keys, registry, id) =>
          QueueKeepsInv(m, keys, registry, id);
          QueueKeysPending(m, keys, id);
          forall i: nat, g: Registry
            ensures i in After(ops).registryPerSync && After(ops).registryPerSync[i] == g <==> QueuedUnder(ops, i, g)
          {
            QueuedSnoc(ops, i, g);
          }
        case HandleOp(reports) =>
          HandleKeepsRegistries(m, reports);
          forall i: nat, g: Registry
            ensures i in After(ops).registryPerSync && After(ops).registryPerSync[i] == g <==> QueuedUnder(ops, i, g)
          {
            QueuedSnoc(ops, i, g);
          }
      }
    }
  }

  lemma QueuedSnoc(ops: seq<Op>, id: nat, registry: Registry)
    requires ops != [] && IncreasingIds(ops)
    ensures var n := |ops| - 1;
      && (QueuedUnder(ops, id, registry) <==>
            QueuedUnder(ops[..n], id, registry) || (ops[n].QueueOp? && ops[n].id == id && ops[n].registry == registry))
      && (ops[n].QueueOp? && ops[n].id == id ==> !QueuedUnder(ops[..n], id, registry))
  {
    var n := |ops| - 1;
    assert forall i :: 0 <= i < n ==> ops[..n][i] == ops[i];
  }

  /** In every run, a call to HandleProxyReports applies reports rightly, with the registry queued under their id. */
  lemma EveryReportMeetsItsRegistry(ops: seq<Op>, k: nat)
    requires IncreasingIds(ops) && k < |ops| && ops[k].HandleOp?
    ensures var m, reports := After(ops[..k]), FilterProxies(ops[k].reports);
      var h := HandleAll(m, reports);
      var applied := Applied(h.maps, h.toReport);
      && RightlyApplied(m, reports, applied)
      && forall id <- applied :: QueuedUnder(ops[..k], id, applied[id].registry)
  {
    hide HandleAll;
    hide RightlyApplied;
    var m, reports := After(ops[..k]), FilterProxies(ops[k].reports);
    RunKeepsInv(ops[..k]);
    HandleAppliesRightly(m, reports);
    HandleAllKeepsInv(m, reports);
  }

  /** A report without the annotation is admitted under the id of its predecessor in the list. */
  lemma UnstampedReportTakesPreviousId(m: Maps, reports: seq<ProxyReport>, i: nat, id: nat)
    requires 0 < i && AdmittedAt(m, reports, i, id) && reports[i].annotation.Missing?
    ensures id == EffectiveId(Turn(m, reports, i - 1).syncCount, reports[i - 1])
  {
    assert reports[..i][..i - 1] == reports[..i - 1];
  }

  /** A report of another controller is never applied. */
  lemma OtherControllersAreIgnored(m: Maps, reports: seq<ProxyReport>, id: nat, r: ProxyReport)
    requires Inv(m)
    requires var h := HandleAll(m, FilterProxies(reports));
      var applied := Applied(h.maps, h.toReport); id in applied && r in applied[id].reports
    ensures r in reports && r.fromGatewayApi
  {
    hide HandleAll, Turn;
    var filtered := FilterProxies(reports);
    HandleAppliesRightly(m, filtered);
    assert AnyAdmitted(m, filtered, id, r);
    FilterProxiesIs(reports);
    FilterIsExact((x: ProxyReport) => x.fromGatewayApi, reports);
    assert r in filtered;
  }

  /** The reports admitted under `id` among the first n, in order. */
  ghost function AdmittedAmong(m: Maps, reports: seq<ProxyReport>, n: nat, id: nat): seq<ProxyReport>
    requires n <= |reports|
  {
    if n == 0 then [] else AdmittedAmong(m, reports, n - 1, id) + if AdmittedAt(m, reports, n - 1, id) then [reports[n - 1]] else []
  }

  lemma {:induction false} AdmittedAmongPrefix(m: Maps, reports: seq<ProxyReport>, n: nat, k: nat, id: nat)
    requires k <= n <= |reports|
    ensures AdmittedAmong(m, reports[..n], k, id) == AdmittedAmong(m, reports, k, id)
  {
    hide AdmittedAt;
    if k > 0 {
      AdmittedAmongPrefix(m, reports, n, k - 1, id);
      AdmittedAtPrefix(m, reports, n, k - 1, id);
    }
  }

  /** The group of `id` holds the reports admitted under it, in order and as often as they were admitted. */
  lemma {:induction false} GroupIsInOrder(m: Maps, reports: seq<ProxyReport>, id: nat)
    ensures ReportsFor(HandleAll(m, reports), id) == AdmittedAmong(m, reports, |reports|, id)
  {
    hide HandleOne, Admitted, EffectiveId, ReportsFor;
    if reports == [] {
      NothingGrouped(m, id);
    } else {
      var n := |reports| - 1;
      GroupIsInOrder(m, reports[..n], id);
      GroupStep(HandleAll(m, reports[..n]), reports[n], id);
      AdmittedAmongPrefix(m, reports, n, n, id);
    }
  }

  lemma NothingGrouped(m: Maps, id: nat)
    ensures ReportsFor(HandleAll(m, []), id) == []
  {
  }

  /** One call per id, with exactly the reports admitted under it. */
  lemma ApplicationsAreInOrder(m: Maps, reports: seq<ProxyReport>, id: nat)
    requires Inv(m)
    ensures var h := HandleAll(m, reports);
      var applied := Applied(h.maps, h.toReport);
      id in applied ==> applied[id].reports == AdmittedAmong(m, reports, |reports|, id)
  {
    hide HandleAll, AdmittedAmong;
    GroupIsInOrder(m, reports, id);
  }
}
