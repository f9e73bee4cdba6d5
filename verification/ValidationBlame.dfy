/** Which resources a validation report blames, told by the shapes of report and proxy alone
    (projects/gateway/pkg/reporting/add_proxy_validation_result.go). */
module ValidationBlame {
  import opened Common
  import opened Sources
  import opened ProxyModel
  import opened Reporting

  // ---- where a report speaks about an item ----

  datatype Location =
    | OnListener
    | OnHost(host: nat)
    | OnMatchedHost(matched: nat, entry: nat, host: nat)
    | OnChainHost(chain: nat, entry: nat, host: nat)

  /** The k-th matched listener is the last one of that route config name; an entry of a hybrid report is about it. */
  ghost predicate LastMatchedNamed(rc: RouteConfigName, name: string, ms: seq<MatchedListener>, key: string, k: int) {
    0 <= k < |ms| && rc(name, ms[k].matcher) == key && forall i :: k < i < |ms| ==> rc(name, ms[i].matcher) != key
  }

  ghost predicate LastChainNamed(rc: RouteConfigName, name: string, cs: seq<FilterChain>, key: string, k: int) {
    0 <= k < |cs| && rc(name, cs[k].matcher) == key && forall i :: k < i < |cs| ==> rc(name, cs[i].matcher) != key
  }

  ghost predicate HostSaysAt(metas: seq<Metadata>, reports: seq<VirtualHostReport>, j: nat, meta: Metadata, severity: Severity, e: string) {
    j < |metas| && j < |reports| && metas[j] == meta && HostSays(reports[j], severity, e)
  }

  ghost function MetadataOf(vhs: seq<VirtualHost>): seq<Metadata> {
    seq(|vhs|, i requires 0 <= i < |vhs| => vhs[i].metadata)
  }

  /** The metadata behind the references of a chain; a dangling one has none. */
  ghost function RefMetadata(resources: map<string, VirtualHost>, refs: seq<string>): seq<Metadata> {
    seq(|refs|, i requires 0 <= i < |refs| => if refs[i] in resources then resources[refs[i]].metadata else NoMetadata)
  }

  /** The report says `e` about the item of `l` at `loc`, whose metadata is `meta`. */
  ghost predicate SaysAt(rc: RouteConfigName, l: Listener, report: ListenerReport, loc: Location, meta: Metadata, severity: Severity, e: string) {
    match loc
    case OnListener => meta == l.metadata && ListenerSays(report, severity, e)
    case OnHost(j) =>
      && l.spec.Http? && report.typeReport.HttpReport?
      && HostSaysAt(MetadataOf(l.spec.http.virtualHosts), report.typeReport.http.virtualHosts, j, meta, severity, e)
    case OnMatchedHost(k, n, j) =>
      && l.spec.Hybrid? && report.typeReport.HybridReport? && n < |report.typeReport.matched|
      && var (key, entry) := report.typeReport.matched[n];
      && LastMatchedNamed(rc, l.name, l.spec.matched, key, k) && l.spec.matched[k].MatchedHttp? && entry.MatchedHttpReport?
      && HostSaysAt(MetadataOf(l.spec.matched[k].http.virtualHosts), entry.http.virtualHosts, j, meta, severity, e)
    case OnChainHost(k, n, j) =>
      && l.spec.Aggregate? && report.typeReport.AggregateReport? && n < |report.typeReport.listeners|
      && var (key, entry) := report.typeReport.listeners[n];
      && LastChainNamed(rc, l.name, l.spec.chains, key, k)
      && HostSaysAt(RefMetadata(l.spec.resources, l.spec.chains[k].virtualHostRefs), entry.virtualHosts, j, meta, severity, e)
  }

  // ---- finding the sub-listener of an entry ----

  lemma {:induction false} FindMatchedIs(rc: RouteConfigName, name: string, ms: seq<MatchedListener>, key: string)
    ensures forall k :: LastMatchedNamed(rc, name, ms, key, k) ==> FindMatched(rc, name, ms, key) == Some(ms[k])
    ensures FindMatched(rc, name, ms, key).Some? ==> exists k :: LastMatchedNamed(rc, name, ms, key, k)
  {
    if ms != [] {
      var n := |ms| - 1;
      var init := ms[..n];
      if rc(name, ms[n].matcher) == key {
        assert LastMatchedNamed(rc, name, ms, key, n);
      } else {
        FindMatchedIs(rc, name, init, key);
        forall k ensures LastMatchedNamed(rc, name, ms, key, k) <==> LastMatchedNamed(rc, name, init, key, k) {
          assert forall i :: 0 <= i < n ==> init[i] == ms[i];
        }
        if FindMatched(rc, name, init, key).Some? {
          var k :| LastMatchedNamed(rc, name, init, key, k);
          assert LastMatchedNamed(rc, name, ms, key, k);
        }
      }
    }
  }

  lemma {:induction false} FindChainIs(rc: RouteConfigName, name: string, cs: seq<FilterChain>, key: string)
    ensures forall k :: LastChainNamed(rc, name, cs, key, k) ==> FindChainRefs(rc, name, cs, key) == cs[k].virtualHostRefs
    ensures FindChainRefs(rc, name, cs, key) != [] ==> exists k :: LastChainNamed(rc, name, cs, key, k)
  {
    if cs != [] {
      var n := |cs| - 1;
      var init := cs[..n];
      if rc(name, cs[n].matcher) == key {
        assert LastChainNamed(rc, name, cs, key, n);
      } else {
        FindChainIs(rc, name, init, key);
        forall k ensures LastChainNamed(rc, name, cs, key, k) <==> LastChainNamed(rc, name, init, key, k) {
          assert forall i :: 0 <= i < n ==> init[i] == cs[i];
        }
        if FindChainRefs(rc, name, init, key) != [] {
          var k :| LastChainNamed(rc, name, init, key, k);
          assert LastChainNamed(rc, name, cs, key, k);
        }
      }
    }
  }

  // ---- parts and locations ----

  /** Host j of part p says `e`. */
  ghost predicate PartSays(parts: seq<Option<Part>>, p: int, j: int, meta: Metadata, severity: Severity, e: string)
    requires Fits(parts)
  {
    && 0 <= p < |parts| && FitsPart(parts[p]) && 0 <= j < |parts[p].value.virtualHosts|
    && parts[p].value.virtualHosts[j].metadata == meta && HostSays(parts[p].value.reports[j], severity, e)
  }

  /** The location of host j of part p. */
  lemma PartToLocation(rc: RouteConfigName, l: Listener, report: ListenerReport, p: int, j: int, meta: Metadata, severity: Severity, e: string)
    returns (loc: Location)
    requires Fits(Parts(rc, l, report.typeReport)) && PartSays(Parts(rc, l, report.typeReport), p, j, meta, severity, e)
    ensures !loc.OnListener? && SaysAt(rc, l, report, loc, meta, severity, e)
  {
    hide HostSays, FindMatched, FindChainRefs;
    match report.typeReport {
      case HttpReport(http) =>
        loc := OnHost(j);
      case HybridReport(ms) =>
        FindMatchedIs(rc, l.name, MatchedOf(l.spec), ms[p].0);
        var k :| LastMatchedNamed(rc, l.name, MatchedOf(l.spec), ms[p].0, k);
        loc := OnMatchedHost(k, p, j);
      case AggregateReport(entries) =>
        FindChainIs(rc, l.name, ChainsOf(l), entries[p].0);
        var k :| LastChainNamed(rc, l.name, ChainsOf(l), entries[p].0, k);
        loc := OnChainHost(k, p, j);
    }
  }

  lemma LocationToPart(rc: RouteConfigName, l: Listener, report: ListenerReport, loc: Location, meta: Metadata, severity: Severity, e: string)
    returns (p: int, j: int)
    requires Fits(Parts(rc, l, report.typeReport)) && !loc.OnListener? && SaysAt(rc, l, report, loc, meta, severity, e)
    ensures PartSays(Parts(rc, l, report.typeReport), p, j, meta, severity, e)
  {
    hide HostSays, FindMatched, FindChainRefs;
    var parts := Parts(rc, l, report.typeReport);
    match loc {
      case OnHost(host) =>
        p, j := 0, host;
      case OnMatchedHost(k, n, host) =>
        FindMatchedIs(rc, l.name, l.spec.matched, report.typeReport.matched[n].0);
        p, j := n, host;
      case OnChainHost(k, n, host) =>
        FindChainIs(rc, l.name, l.spec.chains, report.typeReport.listeners[n].0);
        p, j := n, host;
    }
    assert FitsPart(parts[p]);
  }

  // ---- findings and parts ----

  lemma {:induction false} PartFindingAt(parts: seq<Option<Part>>, p: int, j: int) returns (n: int)
    requires Fits(parts) && 0 <= p < |parts| && FitsPart(parts[p]) && 0 <= j < |parts[p].value.virtualHosts|
    ensures 0 <= n < |PartFindings(parts)|
    ensures PartFindings(parts)[n] == VirtualHostFinding(parts[p].value.virtualHosts[j], parts[p].value.reports[j])
  {
    hide VirtualHostFinding;
    var m := |parts| - 1;
    if p < m {
      n := PartFindingAt(parts[..m], p, j);
    } else {
      n := |PartFindings(parts[..m])| + j;
    }
  }

  lemma {:induction false} PartFindingFrom(parts: seq<Option<Part>>, n: int) returns (p: int, j: int)
    requires Fits(parts) && 0 <= n < |PartFindings(parts)|
    ensures 0 <= p < |parts| && FitsPart(parts[p]) && 0 <= j < |parts[p].value.virtualHosts|
    ensures PartFindings(parts)[n] == VirtualHostFinding(parts[p].value.virtualHosts[j], parts[p].value.reports[j])
  {
    hide VirtualHostFinding;
    var m := |parts| - 1;
    var before := |PartFindings(parts[..m])|;
    if n < before {
      p, j := PartFindingFrom(parts[..m], n);
      assert parts[..m][p] == parts[p];
    } else {
      assert FitsPart(parts[m]);
      p, j := m, n - before;
    }
  }

  /** The findings of listener i: its own, then those of its parts. */
  ghost function FindingsOf(rc: RouteConfigName, l: Listener, report: ListenerReport): seq<Finding>
    requires Fits(Parts(rc, l, report.typeReport))
  {
    [ListenerFinding(l, report)] + PartFindings(Parts(rc, l, report.typeReport))
  }

  lemma {:induction false} FindingAt(rc: RouteConfigName, ls: seq<Listener>, rs: seq<ListenerReport>, i: int, m: int) returns (n: int)
    requires Matches(rc, ls, rs) && 0 <= i < |ls| && 0 <= m < |FindingsOf(rc, ls[i], rs[i])|
    ensures 0 <= n < |Findings(rc, ls, rs)| && Findings(rc, ls, rs)[n] == FindingsOf(rc, ls[i], rs[i])[m]
  {
    hide Parts, PartFindings, Fits, ListenerFinding;
    var last := |ls| - 1;
    assert Matches(rc, ls[..last], rs[..last]);
    if i < last {
      n := FindingAt(rc, ls[..last], rs[..last], i, m);
    } else {
      n := |Findings(rc, ls[..last], rs[..last])| + m;
    }
  }

  lemma {:induction false} FindingFrom(rc: RouteConfigName, ls: seq<Listener>, rs: seq<ListenerReport>, n: int) returns (i: int, m: int)
    requires Matches(rc, ls, rs) && 0 <= n < |Findings(rc, ls, rs)|
    ensures 0 <= i < |ls| && 0 <= m < |FindingsOf(rc, ls[i], rs[i])| && Findings(rc, ls, rs)[n] == FindingsOf(rc, ls[i], rs[i])[m]
  {
    hide Parts, PartFindings, Fits, ListenerFinding;
    var last := |ls| - 1;
    assert Matches(rc, ls[..last], rs[..last]);
    var before := |Findings(rc, ls[..last], rs[..last])|;
    if n < before {
      i, m := FindingFrom(rc, ls[..last], rs[..last], n);
    } else {
      i, m := last, n - before;
    }
  }

  // ---- one listener ----

  lemma LocationIsFinding(rc: RouteConfigName, l: Listener, report: ListenerReport, loc: Location, meta: Metadata, severity: Severity, e: string)
    returns (m: int)
    requires Fits(Parts(rc, l, report.typeReport)) && SaysAt(rc, l, report, loc, meta, severity, e)
    ensures 0 <= m < |FindingsOf(rc, l, report)|
    ensures FindingsOf(rc, l, report)[m].metadata == meta && FindingSays(FindingsOf(rc, l, report)[m], severity, e)
  {
    hide Parts, PartFindings, Fits, FindingSays, VirtualHostFinding, ListenerFinding, HostSays, ListenerSays;
    var parts := Parts(rc, l, report.typeReport);
    var nobody, nothing := NIL_VIRTUAL_HOST, VirtualHostReport([], []);
    if loc.OnListener? {
      FindingsAreFaithful(nobody, nothing, l, report, severity, e);
      m := 0;
    } else {
      var p, j := LocationToPart(rc, l, report, loc, meta, severity, e);
      var n := PartFindingAt(parts, p, j);
      FindingsAreFaithful(parts[p].value.virtualHosts[j], parts[p].value.reports[j], l, report, severity, e);
      m := 1 + n;
    }
  }

  lemma FindingIsLocation(rc: RouteConfigName, l: Listener, report: ListenerReport, m: int, severity: Severity, e: string)
    returns (loc: Location)
    requires Fits(Parts(rc, l, report.typeReport)) && 0 <= m < |FindingsOf(rc, l, report)|
    requires FindingSays(FindingsOf(rc, l, report)[m], severity, e)
    ensures SaysAt(rc, l, report, loc, FindingsOf(rc, l, report)[m].metadata, severity, e)
  {
    hide Parts, PartFindings, Fits, FindingSays, VirtualHostFinding, ListenerFinding, HostSays, ListenerSays;
    var parts := Parts(rc, l, report.typeReport);
    var nobody, nothing := NIL_VIRTUAL_HOST, VirtualHostReport([], []);
    if m == 0 {
      FindingsAreFaithful(nobody, nothing, l, report, severity, e);
      loc := OnListener;
    } else {
      var p, j := PartFindingFrom(parts, m - 1);
      FindingsAreFaithful(parts[p].value.virtualHosts[j], parts[p].value.reports[j], l, report, severity, e);
      loc := PartToLocation(rc, l, report, p, j, FindingsOf(rc, l, report)[m].metadata, severity, e);
    }
  }

  // ---- the whole report ----

  /** The report says `e` somewhere about an item generated from `key`. */
  ghost predicate SaidOf(rc: RouteConfigName, ls: seq<Listener>, rs: seq<ListenerReport>, key: SourceKey, severity: Severity, e: string) {
    exists i, loc, meta :: 0 <= i < |ls| && i < |rs| && SaysAt(rc, ls[i], rs[i], loc, meta, severity, e) && key in SourceKeys(meta)
  }

  lemma SaidIsBlamed(rc: RouteConfigName, ls: seq<Listener>, rs: seq<ListenerReport>, key: SourceKey, severity: Severity, e: string)
    requires Matches(rc, ls, rs)
    ensures Blamed(Findings(rc, ls, rs), key, severity, e) <==> SaidOf(rc, ls, rs, key, severity, e)
  {
    hide SaysAt, FindingSays, Findings, FindingsOf, SourceKeys;
    var fs := Findings(rc, ls, rs);
    if Blamed(fs, key, severity, e) {
      var n :| 0 <= n < |fs| && key in SourceKeys(fs[n].metadata) && FindingSays(fs[n], severity, e);
      var i, m := FindingFrom(rc, ls, rs, n);
      var loc := FindingIsLocation(rc, ls[i], rs[i], m, severity, e);
      assert SaysAt(rc, ls[i], rs[i], loc, fs[n].metadata, severity, e);
    }
    if SaidOf(rc, ls, rs, key, severity, e) {
      var i, loc, meta :| 0 <= i < |ls| && i < |rs| && SaysAt(rc, ls[i], rs[i], loc, meta, severity, e) && key in SourceKeys(meta);
      var m := LocationIsFinding(rc, ls[i], rs[i], loc, meta, severity, e);
      var n := FindingAt(rc, ls, rs, i, m);
      assert fs[n].metadata == meta;
    }
  }

  /** After `AddProxyValidationResult` the report of a resource says `e`, as an error or a warning, exactly when it did before
      or the validation report says `e` about an item generated from the resource. */
  lemma ValidationIsExact(rc: RouteConfigName, reports: Reports, ls: seq<Listener>, rs: seq<ListenerReport>,
                          key: SourceKey, severity: Severity, e: string)
    requires ProxyChargeable(reports, rc, ls, rs) && key in reports
    ensures ReportSays(ApplyAll(reports, Findings(rc, ls, rs))[key], severity, e)
       <==> ReportSays(reports[key], severity, e) || SaidOf(rc, ls, rs, key, severity, e)
  {
    hide Findings, Matches, ApplyAll, SaidOf, Blamed, ReportSays;
    BlameIsExact(reports, Findings(rc, ls, rs), key, severity, e);
    SaidIsBlamed(rc, ls, rs, key, severity, e);
  }

  /** What is said about an item lands on resources that have a report. */
  lemma SaidIsChargeable(rc: RouteConfigName, reports: Reports, ls: seq<Listener>, rs: seq<ListenerReport>,
                         i: int, loc: Location, meta: Metadata, severity: Severity, e: string, key: SourceKey)
    requires ProxyChargeable(reports, rc, ls, rs) && 0 <= i < |ls| && i < |rs|
    requires SaysAt(rc, ls[i], rs[i], loc, meta, severity, e) && key in SourceKeys(meta)
    ensures key in reports
  {
    hide SaysAt, FindingSays, Findings, FindingsOf, SourceKeys;
    var m := LocationIsFinding(rc, ls[i], rs[i], loc, meta, severity, e);
    var n := FindingAt(rc, ls, rs, i, m);
    assert Chargeable(reports, Findings(rc, ls, rs)[n]);
  }

  // ---- when a report fits ----

  /** One report per virtual host: of the listener, of the matched listener an entry names, of the chain an entry names. */
  ghost predicate ReportFits(rc: RouteConfigName, l: Listener, report: ListenerTypeReport) {
    match report
    case HttpReport(http) => |http.virtualHosts| == if l.spec.Http? then |l.spec.http.virtualHosts| else 0
    case HybridReport(entries) =>
      forall n :: 0 <= n < |entries| && entries[n].1.MatchedHttpReport? ==> EntryFits(rc, l, entries[n].0, |entries[n].1.http.virtualHosts|)
    case AggregateReport(entries) =>
      forall n :: 0 <= n < |entries| ==> ChainEntryFits(rc, l, entries[n].0, |entries[n].1.virtualHosts|)
    case TcpReport(_) => true
    case NoTypeReport => true
  }

  ghost predicate EntryFits(rc: RouteConfigName, l: Listener, key: string, count: nat) {
    && l.spec.Hybrid?
    && exists k :: LastMatchedNamed(rc, l.name, l.spec.matched, key, k)
                   && count == if l.spec.matched[k].MatchedHttp? then |l.spec.matched[k].http.virtualHosts| else 0
  }

  /** An entry no chain is named after may only be empty. */
  ghost predicate ChainEntryFits(rc: RouteConfigName, l: Listener, key: string, count: nat) {
    || (l.spec.Aggregate? && exists k :: LastChainNamed(rc, l.name, l.spec.chains, key, k) && count == |l.spec.chains[k].virtualHostRefs|)
    || (count == 0 && (l.spec.Aggregate? ==> forall k :: !LastChainNamed(rc, l.name, l.spec.chains, key, k)))
  }

  lemma HybridPartFits(rc: RouteConfigName, l: Listener, entry: (string, MatchedListenerReport))
    requires entry.1.MatchedHttpReport?
    ensures FitsPart(HybridPart(rc, l, entry)) <==> EntryFits(rc, l, entry.0, |entry.1.http.virtualHosts|)
  {
    FindMatchedIs(rc, l.name, MatchedOf(l.spec), entry.0);
  }

  lemma AggregatePartFits(rc: RouteConfigName, l: Listener, entry: (string, HttpListenerReport))
    ensures FitsPart(AggregatePart(rc, l, entry)) <==> ChainEntryFits(rc, l, entry.0, |entry.1.virtualHosts|)
  {
    FindChainIs(rc, l.name, ChainsOf(l), entry.0);
  }

  /** The code accepts the shape of a report exactly when it fits. */
  lemma FitsIff(rc: RouteConfigName, l: Listener, report: ListenerTypeReport)
    ensures Fits(Parts(rc, l, report)) <==> ReportFits(rc, l, report)
  {
    hide EntryFits, ChainEntryFits, HybridPart, AggregatePart;
    var parts := Parts(rc, l, report);
    match report {
      case HttpReport(_) =>
        assert Fits(parts) <==> FitsPart(parts[0]);
      case HybridReport(entries) =>
        forall n | 0 <= n < |entries|
          ensures FitsPart(parts[n]) <==> (entries[n].1.MatchedHttpReport? ==> EntryFits(rc, l, entries[n].0, |entries[n].1.http.virtualHosts|))
        {
          if entries[n].1.MatchedHttpReport? {
            HybridPartFits(rc, l, entries[n]);
          } else {
            NoHybridPart(rc, l, entries[n]);
          }
        }
      case AggregateReport(entries) =>
        forall n | 0 <= n < |entries|
          ensures FitsPart(parts[n]) <==> ChainEntryFits(rc, l, entries[n].0, |entries[n].1.virtualHosts|)
        {
          AggregatePartFits(rc, l, entries[n]);
        }
      case TcpReport(_) =>
      case NoTypeReport =>
    }
  }

  lemma NoHybridPart(rc: RouteConfigName, l: Listener, entry: (string, MatchedListenerReport))
    requires !entry.1.MatchedHttpReport?
    ensures FitsPart(HybridPart(rc, l, entry))
  {
  }
}
