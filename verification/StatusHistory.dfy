/** When a proxy report is applied, told by the history of syncs and reports alone
    (projects/gateway2/status/status_syncer.go). */
module StatusHistory {
  import opened Common
  import opened StatusSyncer

  // ---- histories ----

  /** A proxy is queued for a sync, or a report of it is handled under an id. */
  datatype Event = Sync(key: NamespacedName, id: int) | Report(key: NamespacedName, id: int)

  function KeyEvents(keys: seq<NamespacedName>, id: nat): seq<Event> {
    if keys == [] then [] else KeyEvents(keys[..|keys| - 1], id) + [Sync(keys[|keys| - 1], id)]
  }

  /** The id the last of `reports` is handled under: its own stamp, or that of the last stamped one before it. */
  function StampOf(reports: seq<ProxyReport>): int {
    if reports == [] then 0 else EffectiveId(StampOf(reports[..|reports| - 1]), reports[|reports| - 1])
  }

  /** The stamp of the last report with an annotation, 0 if it does not parse or there is none. */
  lemma {:induction false} StampIs(reports: seq<ProxyReport>)
    ensures (forall i :: 0 <= i < |reports| ==> reports[i].annotation.Missing?) ==> StampOf(reports) == 0
    ensures forall k :: 0 <= k < |reports| && !reports[k].annotation.Missing? && (forall i :: k < i < |reports| ==> reports[i].annotation.Missing?) ==>
      StampOf(reports) == if reports[k].annotation.SyncId? then reports[k].annotation.id else 0
  {
    if reports != [] {
      var n := |reports| - 1;
      StampIs(reports[..n]);
      assert forall i :: 0 <= i < n ==> reports[..n][i] == reports[i];
    }
  }

  function ReportEvents(reports: seq<ProxyReport>): seq<Event> {
    if reports == [] then []
    else ReportEvents(reports[..|reports| - 1]) + [Report(reports[|reports| - 1].key, StampOf(reports))]
  }

  function OpEvents(op: Op): seq<Event> {
    match op
    case QueueOp(keys, _, id) => KeyEvents(keys, id)
    case HandleOp(reports) => ReportEvents(FilterProxies(reports))
  }

  function History(ops: seq<Op>): seq<Event> {
    if ops == [] then [] else History(ops[..|ops| - 1]) + OpEvents(ops[|ops| - 1])
  }

  // ---- what the history says ----

  /** Some proxy was queued under `id`. */
  ghost predicate WasQueued(es: seq<Event>, id: int) {
    exists k :: 0 <= k < |es| && es[k].Sync? && es[k].id == id
  }

  /** Event m is a report of the proxy of event k, under the id of a sync known by then that is not older. */
  ghost predicate Answers(es: seq<Event>, k: int, m: int)
    requires 0 <= k < |es| && 0 <= m < |es|
  {
    es[m].Report? && es[m].key == es[k].key && es[k].id <= es[m].id && WasQueued(es[..m], es[m].id)
  }

  ghost predicate Unanswered(es: seq<Event>, k: int) {
    0 <= k < |es| && es[k].Sync? && forall m :: k < m < |es| ==> !Answers(es, k, m)
  }

  /** A sync of `key` later than `id` still waits for its report. */
  ghost predicate LaterSyncWaits(es: seq<Event>, key: NamespacedName, id: int) {
    exists k :: Unanswered(es, k) && es[k].key == key && es[k].id > id
  }

  ghost predicate Admissible(es: seq<Event>, key: NamespacedName, id: int) {
    WasQueued(es, id) && !LaterSyncWaits(es, key, id)
  }

  // ---- one event more ----

  lemma QueuedSnoc(es: seq<Event>, e: Event, id: int)
    ensures WasQueued(es + [e], id) <==> WasQueued(es, id) || (e.Sync? && e.id == id)
  {
    if WasQueued(es, id) {
      var k :| 0 <= k < |es| && es[k].Sync? && es[k].id == id;
      assert (es + [e])[k] == es[k];
    }
    if e.Sync? && e.id == id {
      assert (es + [e])[|es|] == e;
    }
  }

  lemma AnswersPrefix(es: seq<Event>, n: int, k: int, m: int)
    requires 0 <= k < n <= |es| && 0 <= m < n
    ensures Answers(es[..n], k, m) <==> Answers(es, k, m)
  {
    assert es[..n][..m] == es[..m];
  }

  lemma UnansweredPrefix(es: seq<Event>, n: int, k: int)
    requires 0 <= k < n <= |es| && Unanswered(es, k)
    ensures Unanswered(es[..n], k)
  {
    forall m | k < m < n ensures !Answers(es[..n], k, m) {
      AnswersPrefix(es, n, k, m);
    }
  }

  lemma UnansweredSnoc(es: seq<Event>, e: Event, k: int)
    ensures Unanswered(es + [e], k) <==>
      || (Unanswered(es, k) && !(e.Report? && e.key == es[k].key && es[k].id <= e.id && WasQueued(es, e.id)))
      || (k == |es| && e.Sync?)
  {
    hide WasQueued;
    var now := es + [e];
    assert now[..|es|] == es;
    if 0 <= k < |es| {
      forall m | k < m < |es| ensures Answers(now, k, m) <==> Answers(es, k, m) {
        AnswersPrefix(now, |es|, k, m);
      }
      assert now[|es|] == e;
      if Unanswered(now, k) {
        UnansweredPrefix(now, |es|, k);
        assert !Answers(now, k, |es|);
      }
    }
  }

  /** Sync ids only grow. */
  ghost predicate Ordered(es: seq<Event>) {
    forall a, b :: 0 <= a < b < |es| && es[a].Sync? && es[b].Sync? ==> es[a].id <= es[b].id
  }

  ghost predicate UpTo(es: seq<Event>, id: int) {
    forall k :: 0 <= k < |es| && es[k].Sync? ==> es[k].id <= id
  }

  lemma WaitsAfterSync(es: seq<Event>, key: NamespacedName, q: int, other: NamespacedName, id: int)
    requires UpTo(es, q)
    ensures LaterSyncWaits(es + [Sync(key, q)], other, id) <==> if other == key then q > id else LaterSyncWaits(es, other, id)
  {
    hide Unanswered;
    var e := Sync(key, q);
    var now := es + [e];
    assert now[|es|] == e;
    UnansweredSnoc(es, e, |es|);
    UnansweredIsSync(es, |es|);
    forall k | 0 <= k < |es| ensures Unanswered(now, k) <==> Unanswered(es, k) {
      UnansweredSnoc(es, e, k);
    }
    forall k | Unanswered(now, k) || Unanswered(es, k) ensures 0 <= k <= |es| && (Unanswered(es, k) ==> k < |es| && es[k].id <= q) {
      UnansweredIsSync(es, k);
      UnansweredIsSync(now, k);
    }
    if LaterSyncWaits(es, other, id) {
      var k :| Unanswered(es, k) && es[k].key == other && es[k].id > id;
      assert now[k] == es[k];
    }
  }

  lemma UnansweredIsSync(es: seq<Event>, k: int)
    ensures Unanswered(es, k) ==> 0 <= k < |es| && es[k].Sync?
  {
  }

  lemma WaitsAfterReport(es: seq<Event>, key: NamespacedName, j: int, other: NamespacedName, id: int)
    ensures LaterSyncWaits(es + [Report(key, j)], other, id) <==>
      if other == key && Admissible(es, key, j) then false else LaterSyncWaits(es, other, id)
  {
    hide Unanswered, WasQueued;
    var e := Report(key, j);
    var now := es + [e];
    forall k ensures Unanswered(now, k) ==> 0 <= k < |es| {
      UnansweredIsSync(es, k);
      UnansweredSnoc(es, e, k);
    }
    forall k | 0 <= k < |es|
      ensures now[k] == es[k]
      ensures Unanswered(now, k) <==> Unanswered(es, k) && !(key == es[k].key && es[k].id <= j && WasQueued(es, j))
    {
      UnansweredSnoc(es, e, k);
    }
    forall k ensures Unanswered(es, k) ==> 0 <= k < |es| {
      UnansweredIsSync(es, k);
    }
    if LaterSyncWaits(es, other, id) {
      var k :| Unanswered(es, k) && es[k].key == other && es[k].id > id;
      if !Unanswered(now, k) && LaterSyncWaits(es, key, j) {
        var k2 :| Unanswered(es, k2) && es[k2].key == key && es[k2].id > j;
        assert Unanswered(now, k2) && now[k2].id > id;
      }
    }
  }

  // ---- the maps follow the history ----

  /** The known iterations are the queued ids, and what is pending is what still waits. */
  ghost predicate Tracks(m: Maps, es: seq<Event>) {
    && (forall id: nat :: id in m.resyncsPerIteration <==> WasQueued(es, id))
    && (forall key, id: nat :: PendingId(m, key) > id <==> LaterSyncWaits(es, key, id))
    && forall k :: 0 <= k < |es| && es[k].Sync? ==> es[k].id >= 0
  }

  lemma AdmittedIsAdmissible(m: Maps, es: seq<Event>, r: ProxyReport, id: int)
    requires Tracks(m, es)
    ensures Admitted(m, r, id) <==> Admissible(es, r.key, id)
  {
    hide LaterSyncWaits;
    if id < 0 {
      assert !WasQueued(es, id);
    } else {
      assert PendingId(m, r.key) > id <==> LaterSyncWaits(es, r.key, id);
    }
  }

  lemma SyncTracks(m: Maps, es: seq<Event>, key: NamespacedName, q: nat)
    requires Tracks(m, es) && UpTo(es, q)
    ensures Tracks(QueueOne(m, key, q), es + [Sync(key, q)])
  {
    hide LaterSyncWaits, WasQueued, UpTo;
    var m', now := QueueOne(m, key, q), es + [Sync(key, q)];
    forall id: nat ensures id in m'.resyncsPerIteration <==> WasQueued(now, id) {
      QueuedSnoc(es, Sync(key, q), id);
    }
    forall other, id: nat ensures PendingId(m', other) > id <==> LaterSyncWaits(now, other, id) {
      WaitsAfterSync(es, key, q, other, id);
      assert PendingId(m, other) > id <==> LaterSyncWaits(es, other, id);
    }
  }

  lemma ReportTracks(h: Handling, es: seq<Event>, r: ProxyReport)
    requires Tracks(h.maps, es)
    ensures Tracks(HandleOne(h, r).maps, es + [Report(r.key, EffectiveId(h.syncCount, r))])
  {
    hide LaterSyncWaits, WasQueued, EffectiveId;
    var j := EffectiveId(h.syncCount, r);
    var m, m', now := h.maps, HandleOne(h, r).maps, es + [Report(r.key, j)];
    AdmittedIsAdmissible(m, es, r, j);
    forall id: nat ensures id in m'.resyncsPerIteration <==> WasQueued(now, id) {
      QueuedSnoc(es, Report(r.key, j), id);
    }
    forall other, id: nat ensures PendingId(m', other) > id <==> LaterSyncWaits(now, other, id) {
      WaitsAfterReport(es, r.key, j, other, id);
      assert PendingId(m, other) > id <==> LaterSyncWaits(es, other, id);
    }
  }

  lemma {:induction false} QueueTracks(m: Maps, es: seq<Event>, keys: seq<NamespacedName>, id: nat)
    requires Tracks(m, es) && Ordered(es) && UpTo(es, id)
    ensures Tracks(QueueKeys(m, keys, id), es + KeyEvents(keys, id))
    ensures Ordered(es + KeyEvents(keys, id)) && UpTo(es + KeyEvents(keys, id), id)
  {
    hide Tracks;
    if keys == [] {
      assert es + [] == es;
    } else {
      var n := |keys| - 1;
      QueueTracks(m, es, keys[..n], id);
      var before := es + KeyEvents(keys[..n], id);
      SyncTracks(QueueKeys(m, keys[..n], id), before, keys[n], id);
      assert es + KeyEvents(keys, id) == before + [Sync(keys[n], id)];
    }
  }

  lemma {:induction false} HandleTracks(m: Maps, es: seq<Event>, reports: seq<ProxyReport>)
    requires Tracks(m, es)
    ensures var h := HandleAll(m, reports);
      Tracks(h.maps, es + ReportEvents(reports)) && h.syncCount == StampOf(reports)
  {
    hide Tracks;
    if reports == [] {
      assert es + [] == es;
    } else {
      var n := |reports| - 1;
      HandleTracks(m, es, reports[..n]);
      ReportTracks(HandleAll(m, reports[..n]), es + ReportEvents(reports[..n]), reports[n]);
      assert es + ReportEvents(reports) == es + ReportEvents(reports[..n]) + [Report(reports[n].key, StampOf(reports))];
    }
  }

  lemma {:induction false} ReportEventsAreReports(reports: seq<ProxyReport>)
    ensures forall k :: 0 <= k < |ReportEvents(reports)| ==> ReportEvents(reports)[k].Report?
  {
    if reports != [] {
      ReportEventsAreReports(reports[..|reports| - 1]);
    }
  }

  lemma {:induction false} KeyEventsAreSyncs(keys: seq<NamespacedName>, id: nat)
    ensures |KeyEvents(keys, id)| == |keys|
    ensures forall k :: 0 <= k < |keys| ==> KeyEvents(keys, id)[k] == Sync(keys[k], id)
  {
    if keys != [] {
      KeyEventsAreSyncs(keys[..|keys| - 1], id);
    }
  }

  /** A sync queued after a report has a later id than those queued before it. */
  ghost predicate Separated(es: seq<Event>) {
    forall a, m, b :: 0 <= a < m < b < |es| && es[a].Sync? && es[m].Report? && es[b].Sync? ==> es[a].id < es[b].id
  }

  /** The last sync id of a run. */
  ghost predicate Below(ops: seq<Op>, id: int) {
    forall i :: 0 <= i < |ops| && ops[i].QueueOp? ==> ops[i].id < id
  }

  ghost predicate HistoryBelow(es: seq<Event>, id: int) {
    forall k :: 0 <= k < |es| && es[k].Sync? ==> es[k].id < id
  }

  lemma {:induction false} HistoryIsBelow(ops: seq<Op>, id: int)
    requires Below(ops, id)
    ensures HistoryBelow(History(ops), id)
  {
    if ops != [] {
      var n := |ops| - 1;
      assert Below(ops[..n], id);
      HistoryIsBelow(ops[..n], id);
      match ops[n]
      case QueueOp(keys, _, q) => KeyEventsAreSyncs(keys, q);
      case HandleOp(reports) => ReportEventsAreReports(FilterProxies(reports));
    }
  }

  lemma IdsOfPrefix(ops: seq<Op>)
    requires ops != [] && IncreasingIds(ops)
    ensures var n := |ops| - 1;
      IncreasingIds(ops[..n]) && (ops[n].QueueOp? ==> Below(ops[..n], ops[n].id))
  {
    assert forall i :: 0 <= i < |ops| - 1 ==> ops[..|ops| - 1][i] == ops[i];
  }

  /** In every run the maps follow the history. */
  lemma {:induction false} RunTracks(ops: seq<Op>)
    requires IncreasingIds(ops)
    ensures Tracks(After(ops), History(ops)) && Ordered(History(ops)) && Separated(History(ops))
  {
    if ops == [] {
      EmptyTracks();
    } else {
      hide Tracks, IncreasingIds, Ordered, Separated, UpTo, HistoryBelow;
      var n := |ops| - 1;
      var m, es := After(ops[..n]), History(ops[..n]);
      IdsOfPrefix(ops);
      RunTracks(ops[..n]);
      match ops[n] {
        case QueueOp(keys, registry, id) =>
          HistoryIsBelow(ops[..n], id);
          SyncsKeepOrder(es, keys, id);
          QueueTracks(m, es, keys, id);
          RegistryIsNotTracked(QueueKeys(m, keys, id), After(ops), History(ops));
        case HandleOp(reports) =>
          HandleTracks(m, es, FilterProxies(reports));
          ReportEventsAreReports(FilterProxies(reports));
          ReportsKeepOrder(es, ReportEvents(FilterProxies(reports)));
          RegistryIsNotTracked(HandleAll(m, FilterProxies(reports)).maps, After(ops), History(ops));
      }
    }
  }

  lemma EmptyTracks()
    ensures Tracks(EMPTY, []) && Ordered([]) && Separated([])
  {
  }

  lemma SyncsKeepOrder(es: seq<Event>, keys: seq<NamespacedName>, id: nat)
    requires HistoryBelow(es, id) && Separated(es)
    ensures UpTo(es, id) && Separated(es + KeyEvents(keys, id))
  {
    KeyEventsAreSyncs(keys, id);
  }

  lemma RegistryIsNotTracked(m: Maps, m': Maps, es: seq<Event>)
    requires Tracks(m, es) && m'.resyncsPerProxy == m.resyncsPerProxy && m'.resyncsPerIteration == m.resyncsPerIteration
    ensures Tracks(m', es)
  {
    hide LaterSyncWaits;
    forall key, id: nat ensures PendingId(m', key) > id <==> LaterSyncWaits(es, key, id) {
      assert PendingId(m, key) > id <==> LaterSyncWaits(es, key, id);
    }
  }

  // ---- when a report is applied ----

  /** An iteration once queued is never forgotten, and there are no others. */
  lemma IterationsAreKept(ops: seq<Op>, id: nat)
    requires IncreasingIds(ops)
    ensures id in After(ops).resyncsPerIteration <==> exists i :: 0 <= i < |ops| && ops[i].QueueOp? && ops[i].id == id && ops[i].keys != []
  {
    RunTracks(ops);
    QueuedIsQueueOp(ops, id);
  }

  lemma {:induction false} QueuedIsQueueOp(ops: seq<Op>, id: nat)
    ensures WasQueued(History(ops), id) <==> exists i :: 0 <= i < |ops| && ops[i].QueueOp? && ops[i].id == id && ops[i].keys != []
  {
    if ops != [] {
      var n := |ops| - 1;
      var es, more := History(ops[..n]), OpEvents(ops[n]);
      QueuedIsQueueOp(ops[..n], id);
      assert forall i :: 0 <= i < n ==> ops[..n][i] == ops[i];
      match ops[n] {
        case QueueOp(keys, _, q) => KeyEventsAreSyncs(keys, q);
        case HandleOp(reports) => ReportEventsAreReports(FilterProxies(reports));
      }
      QueuedConcat(es, more, id);
      if ops[n].QueueOp? && ops[n].id == id && ops[n].keys != [] {
        assert more[0].Sync?;
      }
    }
  }

  lemma QueuedConcat(es: seq<Event>, more: seq<Event>, id: int)
    ensures WasQueued(es + more, id) <==> WasQueued(es, id) || WasQueued(more, id)
  {
    if WasQueued(es, id) {
      var k :| 0 <= k < |es| && es[k].Sync? && es[k].id == id;
      assert (es + more)[k] == es[k];
    }
    if WasQueued(more, id) {
      var k :| 0 <= k < |more| && more[k].Sync? && more[k].id == id;
      assert (es + more)[|es| + k] == more[k];
    }
  }

  /** Everything that happened before report i of call k gets its turn. */
  function HistoryAt(ops: seq<Op>, k: nat, i: nat): seq<Event>
    requires k < |ops| && ops[k].HandleOp? && i <= |FilterProxies(ops[k].reports)|
  {
    History(ops[..k]) + ReportEvents(FilterProxies(ops[k].reports)[..i])
  }

  /** In every run: a report is applied at its turn exactly when the sync it is handled under was queued and no later
      sync of its proxy is still unanswered. */
  lemma AppliedIff(ops: seq<Op>, k: nat, i: nat)
    requires IncreasingIds(ops) && k < |ops| && ops[k].HandleOp? && i < |FilterProxies(ops[k].reports)|
    ensures var reports := FilterProxies(ops[k].reports);
      var id := StampOf(reports[..i + 1]);
      && (reports[i].annotation.SyncId? ==> id == reports[i].annotation.id)
      && ((id >= 0 && AdmittedAt(After(ops[..k]), reports, i, id)) <==> Admissible(HistoryAt(ops, k, i), reports[i].key, id))
  {
    hide Admissible;
    var reports := FilterProxies(ops[k].reports);
    var m := After(ops[..k]);
    RunTracks(ops[..k]);
    HandleTracks(m, History(ops[..k]), reports[..i]);
    assert reports[..i + 1][..i] == reports[..i];
    AdmittedIsAdmissible(HandleAll(m, reports[..i]).maps, HistoryAt(ops, k, i), reports[i], StampOf(reports[..i + 1]));
    if StampOf(reports[..i + 1]) < 0 {
      NegativeIsNotQueued(m, History(ops[..k]), reports[..i], reports[i].key, StampOf(reports[..i + 1]));
    }
  }

  lemma NegativeIsNotQueued(m: Maps, es: seq<Event>, reports: seq<ProxyReport>, key: NamespacedName, id: int)
    requires Tracks(m, es) && id < 0
    ensures !Admissible(es + ReportEvents(reports), key, id)
  {
    ReportEventsAreReports(reports);
  }

  // ---- older than the last one applied ----

  /** Event m is a report of `key` that was applied. */
  ghost predicate AppliedTo(es: seq<Event>, key: NamespacedName, m: int) {
    0 <= m < |es| && es[m].Report? && es[m].key == key && Admissible(es[..m], key, es[m].id)
  }

  ghost predicate LastApplied(es: seq<Event>, key: NamespacedName, m: int) {
    AppliedTo(es, key, m) && forall n :: m < n < |es| ==> !AppliedTo(es, key, n)
  }

  ghost predicate SyncOf(es: seq<Event>, key: NamespacedName, k: int) {
    0 <= k < |es| && es[k].Sync? && es[k].key == key
  }

  lemma LastSync(es: seq<Event>, key: NamespacedName, k: int) returns (last: int)
    requires SyncOf(es, key, k)
    ensures SyncOf(es, key, last) && k <= last && forall n :: last < n < |es| ==> !SyncOf(es, key, n)
    decreases |es| - k
  {
    if n :| k < n < |es| && SyncOf(es, key, n) {
      last := LastSync(es, key, n);
    } else {
      last := k;
    }
  }

  lemma NothingLaterWaits(es: seq<Event>, key: NamespacedName, k: int, n: int, id: int)
    requires Ordered(es) && SyncOf(es, key, k) && k < n <= |es| && es[k].id <= id
    requires forall l :: k < l < |es| ==> !SyncOf(es, key, l)
    ensures !LaterSyncWaits(es[..n], key, id)
  {
    forall l | Unanswered(es[..n], l) && es[..n][l].key == key ensures es[..n][l].id <= id {
      assert SyncOf(es, key, l);
    }
  }

  /** A sync after the last application is not answered. */
  lemma LastSyncWaits(es: seq<Event>, key: NamespacedName, m: int, k: int)
    requires Ordered(es) && LastApplied(es, key, m) && SyncOf(es, key, k) && m < k
    requires forall n :: k < n < |es| ==> !SyncOf(es, key, n)
    ensures Unanswered(es, k)
  {
    hide WasQueued, LaterSyncWaits;
    forall n | k < n < |es| ensures !Answers(es, k, n) {
      if es[k].id <= es[n].id {
        NothingLaterWaits(es, key, k, n, es[n].id);
      }
      assert !AppliedTo(es, key, n);
    }
  }

  /** Nothing from before the last application waits any more. */
  lemma ApplicationAnswersAll(es: seq<Event>, key: NamespacedName, m: int, k: int)
    requires AppliedTo(es, key, m) && Unanswered(es, k) && es[k].key == key
    ensures m < k
  {
    if k < m {
      UnansweredPrefix(es, m, k);
      assert es[..m][k] == es[k];
      assert Answers(es, k, m);
    }
  }

  /** After the last application for a proxy, a report of it is applied exactly when its sync was queued and no later sync
      of the proxy was queued since. */
  lemma AppliedAfterIff(es: seq<Event>, key: NamespacedName, m: int, id: int)
    requires Ordered(es) && LastApplied(es, key, m)
    ensures Admissible(es, key, id) <==> WasQueued(es, id) && forall k :: m < k && SyncOf(es, key, k) ==> es[k].id <= id
  {
    hide WasQueued;
    if k :| m < k && SyncOf(es, key, k) && es[k].id > id {
      var last := LastSync(es, key, k);
      LastSyncWaits(es, key, m, last);
      assert es[last].id > id;
    }
    if LaterSyncWaits(es, key, id) {
      var k :| Unanswered(es, k) && es[k].key == key && es[k].id > id;
      UnansweredIsSync(es, k);
      ApplicationAnswersAll(es, key, m, k);
      assert SyncOf(es, key, k);
    }
  }

  /** So a report not newer than the last one applied, a repeated or a superseded one, is applied exactly when its sync was
      queued and the proxy was not queued again in between. */
  lemma OldReportAppliedIff(es: seq<Event>, key: NamespacedName, m: int, id: int)
    requires Ordered(es) && Separated(es) && LastApplied(es, key, m) && id <= es[m].id
    ensures Admissible(es, key, id) <==> WasQueued(es, id) && forall k :: m < k ==> !SyncOf(es, key, k)
  {
    AppliedAfterIff(es, key, m, id);
    var a :| 0 <= a < |es[..m]| && es[..m][a].Sync? && es[..m][a].id == es[m].id;
    assert es[a].Sync? && es[a].id == es[m].id;
    forall k | m < k && SyncOf(es, key, k) ensures es[k].id > id {
      assert es[a].id < es[k].id;
    }
  }

  /** The same over runs: a report of a call, not newer than the last one applied for its proxy. */
  lemma OldReportInRunAppliedIff(ops: seq<Op>, k: nat, i: nat, m: int)
    requires IncreasingIds(ops) && k < |ops| && ops[k].HandleOp? && i < |FilterProxies(ops[k].reports)|
    requires var reports, es := FilterProxies(ops[k].reports), HistoryAt(ops, k, i);
      LastApplied(es, reports[i].key, m) && 0 <= StampOf(reports[..i + 1]) <= es[m].id
    ensures var reports, es := FilterProxies(ops[k].reports), HistoryAt(ops, k, i);
      var id := StampOf(reports[..i + 1]);
      AdmittedAt(After(ops[..k]), reports, i, id) <==> WasQueued(es, id) && forall n :: m < n ==> !SyncOf(es, reports[i].key, n)
  {
    hide AdmittedAt, LastApplied, WasQueued, Admissible;
    var reports, es := FilterProxies(ops[k].reports), HistoryAt(ops, k, i);
    AppliedIff(ops, k, i);
    RunTracks(ops[..k]);
    ReportEventsAreReports(reports[..i]);
    ReportsKeepOrder(History(ops[..k]), ReportEvents(reports[..i]));
    OldReportAppliedIff(es, reports[i].key, m, StampOf(reports[..i + 1]));
  }

  lemma ReportsKeepOrder(es: seq<Event>, more: seq<Event>)
    requires Ordered(es) && Separated(es) && forall k :: 0 <= k < |more| ==> more[k].Report?
    ensures Ordered(es + more) && Separated(es + more)
  {
  }

  // ---- witnesses ----

  const PROXY := NamespacedName("ns", "gw")

  function StampedReport(id: int): ProxyReport {
    ProxyReport(PROXY, SyncId(id), true, "")
  }

  function Handle(id: int): Op {
    HandleOp([StampedReport(id)])
  }

  lemma HandleEvents(id: int)
    ensures FilterProxies([StampedReport(id)]) == [StampedReport(id)] && StampOf([StampedReport(id)]) == id
    ensures OpEvents(Handle(id)) == [Report(PROXY, id)]
  {
    var r := StampedReport(id);
    assert [r][..0] == [];
    assert ReportEvents([r]) == ReportEvents([]) + [Report(PROXY, StampOf([r]))];
  }

  lemma QueueEvents(registry: Registry, id: nat)
    ensures OpEvents(QueueOp([PROXY], registry, id)) == [Sync(PROXY, id)]
  {
    assert [PROXY][..0] == [];
    assert KeyEvents([PROXY], id) == KeyEvents([], id) + [Sync(PROXY, id)];
  }

  lemma HistorySnoc(ops: seq<Op>, op: Op)
    ensures History(ops + [op]) == History(ops) + OpEvents(op)
  {
    assert (ops + [op])[..|ops|] == ops;
  }

  /** A report of `PROXY` handled after `ops` is applied when the history of `ops` admits it. */
  lemma HandledNext(ops: seq<Op>, id: nat)
    requires IncreasingIds(ops) && Admissible(History(ops), PROXY, id)
    ensures AdmittedAt(After(ops), [StampedReport(id)], 0, id)
  {
    hide AdmittedAt, Admissible, StampOf, FilterProxies;
    var all := ops + [Handle(id)];
    HandleEvents(id);
    assert all[..|ops|] == ops && all[|ops|] == Handle(id);
    assert [StampedReport(id)][..1] == [StampedReport(id)] && [StampedReport(id)][..0] == [];
    assert HistoryAt(all, |ops|, 0) == History(ops);
    AppliedIff(all, |ops|, 0);
  }

  /** Not at most once: the same report is applied again. */
  lemma RepeatedReportIsAppliedAgain(registry: Registry, id: nat)
    ensures AdmittedAt(After([QueueOp([PROXY], registry, id), Handle(id)]), [StampedReport(id)], 0, id)
  {
    hide AdmittedAt, OpEvents, After;
    var queue, handle := QueueOp([PROXY], registry, id), Handle(id);
    var es := [Sync(PROXY, id), Report(PROXY, id)];
    HandleEvents(id);
    QueueEvents(registry, id);
    HistorySnoc([], queue);
    HistorySnoc([queue], handle);
    assert [queue] + [handle] == [queue, handle] && [] + [queue] == [queue];
    assert History([queue, handle]) == es;
    assert es[..1][0].Sync? && es[0].Sync?;
    assert Answers(es, 0, 1);
    HandledNext([queue, handle], id);
  }

  /** Nor in order: a report superseded by a newer sync is applied after the report of that newer sync. */
  lemma SupersededReportIsApplied(r1: Registry, r2: Registry, id: nat, newer: nat)
    requires id < newer
    ensures AdmittedAt(After([QueueOp([PROXY], r1, id), QueueOp([PROXY], r2, newer), Handle(newer)]), [StampedReport(id)], 0, id)
  {
    hide AdmittedAt, OpEvents, After;
    var q1, q2, handle := QueueOp([PROXY], r1, id), QueueOp([PROXY], r2, newer), Handle(newer);
    var es := [Sync(PROXY, id), Sync(PROXY, newer), Report(PROXY, newer)];
    HandleEvents(newer);
    QueueEvents(r1, id);
    QueueEvents(r2, newer);
    HistorySnoc([], q1);
    HistorySnoc([q1], q2);
    HistorySnoc([q1, q2], handle);
    assert [] + [q1] == [q1] && [q1] + [q2] == [q1, q2] && [q1, q2] + [handle] == [q1, q2, handle];
    assert History([q1, q2, handle]) == es;
    assert es[..2][1].Sync? && es[0].Sync?;
    assert Answers(es, 0, 2) && Answers(es, 1, 2);
    HandledNext([q1, q2, handle], id);
  }
}
