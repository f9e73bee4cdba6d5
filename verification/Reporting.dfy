/** `AddProxyValidationResult` (projects/gateway/pkg/reporting/add_proxy_validation_result.go): charges the errors and
    warnings found on a proxy to the resources its listeners and virtual hosts were generated from. */
module Reporting {
  import opened Common
  import opened Sources
  import opened ProxyModel

  datatype ReportError =
    | ListenersMismatch
    | VirtualHostsMismatch
    | HybridRouteConfigNotFound
    | MissingReportForSource
    | BadMetadata

  /** `utils.MatchedRouteConfigName`, as a function of the listener name and the matcher. */
  type RouteConfigName = (string, Matcher) -> string

  // ---- error aggregation ----

  function Flatten(parts: seq<seq<string>>): seq<string> {
    if parts == [] then [] else Flatten(parts[..|parts| - 1]) + parts[|parts| - 1]
  }

  function RouteErrors(routes: seq<RouteReport>): seq<string> {
    if routes == [] then [] else RouteErrors(routes[..|routes| - 1]) + routes[|routes| - 1].errors
  }

  function RouteWarnings(routes: seq<RouteReport>): seq<string> {
    if routes == [] then [] else RouteWarnings(routes[..|routes| - 1]) + routes[|routes| - 1].warnings
  }

  function TcpErrors(tcp: TcpListenerReport): seq<string> {
    tcp.errors + Flatten(tcp.hosts)
  }

  function MatchedErrors(m: MatchedListenerReport): seq<string> {
    match m
    case MatchedHttpReport(http) => http.errors
    case MatchedTcpReport(tcp) => TcpErrors(tcp)
    case MatchedNoReport => []
  }

  function ListenerErrors(report: ListenerReport): seq<string> {
    report.errors +
    match report.typeReport
    case HttpReport(http) => http.errors
    case TcpReport(tcp) => TcpErrors(tcp)
    case HybridReport(ms) => Flatten(seq(|ms|, i requires 0 <= i < |ms| => MatchedErrors(ms[i].1)))
    case AggregateReport(ls) => Flatten(seq(|ls|, i requires 0 <= i < |ls| => ls[i].1.errors))
    case NoTypeReport => []
  }

  /** The virtual-host level errors are its own and those of every route. */
  method GetVirtualHostLevelErrorsAndWarnings(report: VirtualHostReport) returns (errors: seq<string>, warnings: seq<string>)
    ensures errors == report.errors + RouteErrors(report.routes)
    ensures warnings == RouteWarnings(report.routes)
  {
    errors, warnings := report.errors, [];
    for i := 0 to |report.routes|
      invariant errors == report.errors + RouteErrors(report.routes[..i])
      invariant warnings == RouteWarnings(report.routes[..i])
    {
      assert report.routes[..i + 1][..i] == report.routes[..i];
      errors := errors + report.routes[i].errors;
      warnings := warnings + report.routes[i].warnings;
    }
    assert report.routes[..|report.routes|] == report.routes;
  }

  /** `getListenerLevelErrors`: the listener's own errors and those of its sub-listeners, virtual hosts excluded. */
  method GetListenerLevelErrors(report: ListenerReport) returns (errors: seq<string>)
    ensures errors == ListenerErrors(report)
  {
    errors := report.errors;
    match report.typeReport {
      case HttpReport(http) => errors := errors + http.errors;
      case TcpReport(tcp) =>
        var tcpErrors := GetTcpErrors(tcp);
        errors := errors + tcpErrors;
      case HybridReport(ms) =>
        ghost var parts := seq(|ms|, i requires 0 <= i < |ms| => MatchedErrors(ms[i].1));
        for i := 0 to |ms|
          invariant errors == report.errors + Flatten(parts[..i])
        {
          assert parts[..i + 1][..i] == parts[..i];
          match ms[i].1 {
            case MatchedHttpReport(http) => errors := errors + http.errors;
            case MatchedTcpReport(tcp) =>
              var tcpErrors := GetTcpErrors(tcp);
              errors := errors + tcpErrors;
            case MatchedNoReport =>
          }
        }
        assert parts[..|ms|] == parts;
      case AggregateReport(ls) =>
        ghost var parts := seq(|ls|, i requires 0 <= i < |ls| => ls[i].1.errors);
        for i := 0 to |ls|
          invariant errors == report.errors + Flatten(parts[..i])
        {
          assert parts[..i + 1][..i] == parts[..i];
          errors := errors + ls[i].1.errors;
        }
        assert parts[..|ls|] == parts;
      case NoTypeReport =>
    }
  }

  method GetTcpErrors(tcp: TcpListenerReport) returns (errors: seq<string>)
    ensures errors == TcpErrors(tcp)
  {
    errors := tcp.errors;
    for i := 0 to |tcp.hosts|
      invariant errors == tcp.errors + Flatten(tcp.hosts[..i])
    {
      assert tcp.hosts[..i + 1][..i] == tcp.hosts[..i];
      errors := errors + tcp.hosts[i];
    }
    assert tcp.hosts[..|tcp.hosts|] == tcp.hosts;
  }

  // ---- what a report says, by its shape alone ----

  datatype Severity = AnError | AWarning

  ghost predicate TcpError(tcp: TcpListenerReport, e: string) {
    e in tcp.errors || exists h :: 0 <= h < |tcp.hosts| && e in tcp.hosts[h]
  }

  ghost predicate MatchedError(m: MatchedListenerReport, e: string) {
    match m
    case MatchedHttpReport(http) => e in http.errors
    case MatchedTcpReport(tcp) => TcpError(tcp, e)
    case MatchedNoReport => false
  }

  /** `e` is an error of the listener itself or of one of its sub-listeners. */
  ghost predicate ListenerError(report: ListenerReport, e: string) {
    || e in report.errors
    || match report.typeReport
       case HttpReport(http) => e in http.errors
       case TcpReport(tcp) => TcpError(tcp, e)
       case HybridReport(ms) => exists i :: 0 <= i < |ms| && MatchedError(ms[i].1, e)
       case AggregateReport(ls) => exists i :: 0 <= i < |ls| && e in ls[i].1.errors
       case NoTypeReport => false
  }

  ghost predicate ListenerSays(report: ListenerReport, severity: Severity, e: string) {
    if severity.AnError? then ListenerError(report, e) else e in report.warnings
  }

  ghost predicate HostSays(report: VirtualHostReport, severity: Severity, e: string) {
    if severity.AnError?
    then e in report.errors || exists i :: 0 <= i < |report.routes| && e in report.routes[i].errors
    else exists i :: 0 <= i < |report.routes| && e in report.routes[i].warnings
  }

  lemma {:induction false} FlattenMembers(parts: seq<seq<string>>, e: string)
    ensures e in Flatten(parts) <==> exists i :: 0 <= i < |parts| && e in parts[i]
  {
    if parts != [] {
      var n := |parts| - 1;
      FlattenMembers(parts[..n], e);
      assert forall i :: 0 <= i < n ==> parts[..n][i] == parts[i];
    }
  }

  lemma MatchedErrorsAreExact(m: MatchedListenerReport, e: string)
    ensures e in MatchedErrors(m) <==> MatchedError(m, e)
  {
    if m.MatchedTcpReport? {
      FlattenMembers(m.tcp.hosts, e);
    }
  }

  /** The collected listener errors are exactly the error strings found anywhere in the report outside virtual hosts. */
  lemma ListenerErrorsAreExact(report: ListenerReport, e: string)
    ensures e in ListenerErrors(report) <==> ListenerError(report, e)
  {
    hide MatchedErrors, MatchedError;
    match report.typeReport {
      case HttpReport(_) =>
      case TcpReport(tcp) => FlattenMembers(tcp.hosts, e);
      case HybridReport(ms) =>
        var parts := seq(|ms|, i requires 0 <= i < |ms| => MatchedErrors(ms[i].1));
        FlattenMembers(parts, e);
        forall i | 0 <= i < |ms| ensures e in parts[i] <==> MatchedError(ms[i].1, e) {
          MatchedErrorsAreExact(ms[i].1, e);
        }
      case AggregateReport(ls) =>
        var parts := seq(|ls|, i requires 0 <= i < |ls| => ls[i].1.errors);
        FlattenMembers(parts, e);
        assert forall i :: 0 <= i < |ls| ==> parts[i] == ls[i].1.errors;
      case NoTypeReport =>
    }
  }

  lemma {:induction false} RouteErrorMembers(routes: seq<RouteReport>, e: string)
    ensures e in RouteErrors(routes) <==> exists i :: 0 <= i < |routes| && e in routes[i].errors
  {
    if routes != [] {
      var n := |routes| - 1;
      RouteErrorMembers(routes[..n], e);
      assert forall i :: 0 <= i < n ==> routes[..n][i] == routes[i];
    }
  }

  lemma {:induction false} RouteWarningMembers(routes: seq<RouteReport>, e: string)
    ensures e in RouteWarnings(routes) <==> exists i :: 0 <= i < |routes| && e in routes[i].warnings
  {
    if routes != [] {
      var n := |routes| - 1;
      RouteWarningMembers(routes[..n], e);
      assert forall i :: 0 <= i < n ==> routes[..n][i] == routes[i];
    }
  }

  // ---- findings: which metadata is charged with what ----

  datatype Finding = Finding(metadata: Metadata, errors: seq<string>, warnings: seq<string>)

  function VirtualHostFinding(vh: VirtualHost, report: VirtualHostReport): Finding {
    Finding(vh.metadata, report.errors + RouteErrors(report.routes), RouteWarnings(report.routes))
  }

  function ListenerFinding(l: Listener, report: ListenerReport): Finding {
    Finding(l.metadata, ListenerErrors(report), report.warnings)
  }

  ghost predicate FindingSays(f: Finding, severity: Severity, e: string) {
    e in if severity.AnError? then f.errors else f.warnings
  }

  /** A finding carries exactly what the report says about the item, under the item's metadata. */
  lemma FindingsAreFaithful(vh: VirtualHost, vhReport: VirtualHostReport, l: Listener, lReport: ListenerReport, severity: Severity, e: string)
    ensures VirtualHostFinding(vh, vhReport).metadata == vh.metadata && ListenerFinding(l, lReport).metadata == l.metadata
    ensures FindingSays(VirtualHostFinding(vh, vhReport), severity, e) <==> HostSays(vhReport, severity, e)
    ensures FindingSays(ListenerFinding(l, lReport), severity, e) <==> ListenerSays(lReport, severity, e)
  {
    hide ListenerErrors, ListenerError;
    RouteErrorMembers(vhReport.routes, e);
    RouteWarningMembers(vhReport.routes, e);
    ListenerErrorsAreExact(lReport, e);
  }

  function VirtualHostFindings(vhs: seq<VirtualHost>, reports: seq<VirtualHostReport>): seq<Finding>
    requires |vhs| == |reports|
  {
    seq(|vhs|, i requires 0 <= i < |vhs| => VirtualHostFinding(vhs[i], reports[i]))
  }

  /** The matched listener a hybrid report entry is about: Go's map keeps the last one with that name. */
  function FindMatched(rc: RouteConfigName, name: string, ms: seq<MatchedListener>, key: string): Option<MatchedListener> {
    if ms == [] then None
    else if rc(name, ms[|ms| - 1].matcher) == key then Some(ms[|ms| - 1])
    else FindMatched(rc, name, ms[..|ms| - 1], key)
  }

  method MapMatched(rc: RouteConfigName, l: Listener) returns (mapped: map<string, MatchedListener>)
    ensures forall key :: key in mapped <==> FindMatched(rc, l.name, MatchedOf(l.spec), key).Some?
    ensures forall key <- mapped :: FindMatched(rc, l.name, MatchedOf(l.spec), key) == Some(mapped[key])
  {
    var ms := MatchedOf(l.spec);
    mapped := map[];
    for i := 0 to |ms|
      invariant forall key :: key in mapped <==> FindMatched(rc, l.name, ms[..i], key).Some?
      invariant forall key <- mapped :: FindMatched(rc, l.name, ms[..i], key) == Some(mapped[key])
    {
      assert ms[..i + 1][..i] == ms[..i];
      mapped := mapped[rc(l.name, ms[i].matcher) := ms[i]];
    }
    assert ms[..|ms|] == ms;
  }

  /** The references of the filter chain an aggregate report entry is about; none if no chain has that name. */
  function FindChainRefs(rc: RouteConfigName, name: string, chains: seq<FilterChain>, key: string): seq<string> {
    if chains == [] then []
    else if rc(name, chains[|chains| - 1].matcher) == key then chains[|chains| - 1].virtualHostRefs
    else FindChainRefs(rc, name, chains[..|chains| - 1], key)
  }

  function ChainsOf(l: Listener): seq<FilterChain> {
    if l.spec.Aggregate? then l.spec.chains else []
  }

  function ResourcesOf(l: Listener): map<string, VirtualHost> {
    if l.spec.Aggregate? then l.spec.resources else map[]
  }

  /** The virtual hosts that the i-th part of a listener report is about, with their reports;
      None when the report does not fit the listener. */
  datatype Part = Part(virtualHosts: seq<VirtualHost>, reports: seq<VirtualHostReport>)

  function Parts(rc: RouteConfigName, l: Listener, report: ListenerTypeReport): seq<Option<Part>> {
    match report
    case HttpReport(http) => [Fit(HttpVirtualHosts(l.spec), http.virtualHosts)]
    case HybridReport(ms) =>
      seq(|ms|, i requires 0 <= i < |ms| => HybridPart(rc, l, ms[i]))
    case AggregateReport(ls) =>
      seq(|ls|, i requires 0 <= i < |ls| => AggregatePart(rc, l, ls[i]))
    case TcpReport(_) => []
    case NoTypeReport => []
  }

  function Fit(vhs: seq<VirtualHost>, reports: seq<VirtualHostReport>): Option<Part> {
    if |vhs| == |reports| then Some(Part(vhs, reports)) else None
  }

  function HybridPart(rc: RouteConfigName, l: Listener, entry: (string, MatchedListenerReport)): Option<Part> {
    if !entry.1.MatchedHttpReport? then Some(Part([], []))
    else
      match FindMatched(rc, l.name, MatchedOf(l.spec), entry.0)
      case None => None
      case Some(m) => Fit(MatchedVirtualHosts(m), entry.1.http.virtualHosts)
  }

  function AggregatePart(rc: RouteConfigName, l: Listener, entry: (string, HttpListenerReport)): Option<Part> {
    Fit(ResolveRefs(ResourcesOf(l), FindChainRefs(rc, l.name, ChainsOf(l), entry.0)), entry.1.virtualHosts)
  }

  ghost predicate FitsPart(part: Option<Part>) {
    part.Some? && |part.value.virtualHosts| == |part.value.reports|
  }

  ghost predicate Fits(parts: seq<Option<Part>>) {
    forall i :: 0 <= i < |parts| ==> FitsPart(parts[i])
  }

  ghost function PartFindings(parts: seq<Option<Part>>): seq<Finding>
    requires Fits(parts)
  {
    if parts == [] then []
    else
      var last := parts[|parts| - 1].value;
      PartFindings(parts[..|parts| - 1]) + VirtualHostFindings(last.virtualHosts, last.reports)
  }

  /** The report has one entry per listener and one per virtual host of every part. */
  ghost predicate Matches(rc: RouteConfigName, ls: seq<Listener>, reports: seq<ListenerReport>) {
    && |ls| == |reports|
    && forall i :: 0 <= i < |ls| ==> Fits(Parts(rc, ls[i], reports[i].typeReport))
  }

  ghost function Findings(rc: RouteConfigName, ls: seq<Listener>, reports: seq<ListenerReport>): seq<Finding>
    requires Matches(rc, ls, reports)
  {
    if ls == [] then []
    else
      var n := |ls| - 1;
      Findings(rc, ls[..n], reports[..n])
      + [ListenerFinding(ls[n], reports[n])]
      + PartFindings(Parts(rc, ls[n], reports[n].typeReport))
  }

  /** Every source of the finding has a report to be charged on. */
  predicate Chargeable(reports: Reports, f: Finding) {
    !f.metadata.MalformedStruct? && SourceKeys(f.metadata) <= reports.Keys
  }

  // ---- effect on the resource reports ----

  function Charge(reports: Reports, sources: seq<SourceRef>, errors: seq<string>, warnings: seq<string>): (r: Reports)
    requires forall s <- sources :: KeyOf(s) in reports
    ensures r.Keys == reports.Keys
  {
    if sources == [] then reports
    else
      var init, key := Charge(reports, sources[..|sources| - 1], errors, warnings), KeyOf(sources[|sources| - 1]);
      init[key := Report(init[key].errors + errors, init[key].warnings + warnings)]
  }

  function Apply(reports: Reports, f: Finding): (r: Reports)
    requires Chargeable(reports, f)
    ensures r.Keys == reports.Keys
  {
    var sources := GetSourceMeta(f.metadata).value;
    assert forall s <- sources :: KeyOf(s) in SourceKeys(f.metadata);
    Charge(reports, sources, f.errors, f.warnings)
  }

  ghost predicate AllChargeable(reports: Reports, fs: seq<Finding>) {
    forall i :: 0 <= i < |fs| ==> Chargeable(reports, fs[i])
  }

  ghost function ApplyAll(reports: Reports, fs: seq<Finding>): (r: Reports)
    requires AllChargeable(reports, fs)
    ensures r.Keys == reports.Keys
  {
    if fs == [] then reports
    else
      Apply(ApplyAll(reports, fs[..|fs| - 1]), fs[|fs| - 1])
  }

  ghost predicate ReportSays(r: Report, severity: Severity, e: string) {
    e in if severity.AnError? then r.errors else r.warnings
  }

  ghost predicate HasSource(sources: seq<SourceRef>, key: SourceKey) {
    exists i :: 0 <= i < |sources| && KeyOf(sources[i]) == key
  }

  lemma {:induction false} ChargeSays(reports: Reports, sources: seq<SourceRef>, errors: seq<string>, warnings: seq<string>,
                                      key: SourceKey, severity: Severity, e: string)
    requires (forall s <- sources :: KeyOf(s) in reports) && key in reports
    ensures ReportSays(Charge(reports, sources, errors, warnings)[key], severity, e)
       <==> ReportSays(reports[key], severity, e) || (HasSource(sources, key) && e in if severity.AnError? then errors else warnings)
  {
    if sources != [] {
      var init, last := sources[..|sources| - 1], sources[|sources| - 1];
      ChargeSays(reports, init, errors, warnings, key, severity, e);
      HasSourceSnoc(sources, key);
    }
  }

  lemma HasSourceSnoc(sources: seq<SourceRef>, key: SourceKey)
    requires sources != []
    ensures var n := |sources| - 1; HasSource(sources, key) <==> HasSource(sources[..n], key) || KeyOf(sources[n]) == key
  {
    var n := |sources| - 1;
    assert forall i :: 0 <= i < n ==> sources[..n][i] == sources[i];
  }

  lemma SourcesOfFinding(meta: Metadata, key: SourceKey)
    requires !meta.MalformedStruct?
    ensures key in SourceKeys(meta) <==> HasSource(GetSourceMeta(meta).value, key)
  {
    var sources := GetSourceMeta(meta).value;
    if key in SourceKeys(meta) {
      var s :| s in sources && KeyOf(s) == key;
      var i :| 0 <= i < |sources| && sources[i] == s;
      assert KeyOf(sources[i]) == key;
    }
  }

  lemma ApplySays(reports: Reports, f: Finding, key: SourceKey, severity: Severity, e: string)
    requires Chargeable(reports, f) && key in reports
    ensures ReportSays(Apply(reports, f)[key], severity, e)
       <==> ReportSays(reports[key], severity, e) || (key in SourceKeys(f.metadata) && FindingSays(f, severity, e))
  {
    hide HasSource, Charge;
    var sources := GetSourceMeta(f.metadata).value;
    assert forall s <- sources :: KeyOf(s) in SourceKeys(f.metadata);
    SourcesOfFinding(f.metadata, key);
    ChargeSays(reports, sources, f.errors, f.warnings, key, severity, e);
  }

  /** Some finding on `key` says `e`. */
  ghost predicate Blamed(fs: seq<Finding>, key: SourceKey, severity: Severity, e: string) {
    exists i :: 0 <= i < |fs| && key in SourceKeys(fs[i].metadata) && FindingSays(fs[i], severity, e)
  }

  /** Blame is exact, string by string: afterwards the report of a resource says `e` iff it did before or some item generated
      from the resource says `e`. */
  lemma {:induction false} BlameIsExact(reports: Reports, fs: seq<Finding>, key: SourceKey, severity: Severity, e: string)
    requires AllChargeable(reports, fs) && key in reports
    ensures ReportSays(ApplyAll(reports, fs)[key], severity, e) <==> ReportSays(reports[key], severity, e) || Blamed(fs, key, severity, e)
  {
    hide Apply, SourceKeys, FindingSays, ReportSays;
    if fs != [] {
      var n := |fs| - 1;
      var init, last := fs[..n], fs[n];
      assert forall i :: 0 <= i < n ==> init[i] == fs[i];
      BlameIsExact(reports, init, key, severity, e);
      ApplySays(ApplyAll(reports, init), last, key, severity, e);
      assert Blamed(fs, key, severity, e) <==>
        Blamed(init, key, severity, e) || (key in SourceKeys(last.metadata) && FindingSays(last, severity, e));
    }
  }

  lemma ApplyAllSnoc(reports: Reports, fs: seq<Finding>, f: Finding)
    requires AllChargeable(reports, fs) && Chargeable(reports, f)
    ensures AllChargeable(reports, fs + [f])
    ensures ApplyAll(reports, fs + [f]) == Apply(ApplyAll(reports, fs), f)
  {
    assert (fs + [f])[..|fs|] == fs;
  }

  class ResourceReports {
    var reports: Reports

    constructor (initial: Reports)
      ensures reports == initial
    {
      reports := initial;
    }

    /** The shared body of `addListenerResult` and `addVirtualHostResult`. */
    method AddResult(f: Finding) returns (err: Option<ReportError>)
      modifies this
      ensures err.None? <==> Chargeable(old(reports), f)
      ensures err.None? ==> reports == Apply(old(reports), f)
    {
      var parsed := GetSourceMeta(f.metadata);
      if parsed.Err? {
        return Some(BadMetadata);
      }
      var sources := parsed.value;
      assert forall s <- sources :: KeyOf(s) in SourceKeys(f.metadata);
      for i := 0 to |sources|
        invariant forall s <- sources[..i] :: KeyOf(s) in old(reports)
        invariant reports == Charge(old(reports), sources[..i], f.errors, f.warnings)
      {
        var key := KeyOf(sources[i]);
        if key !in reports {
          return Some(MissingReportForSource);
        }
        assert sources[..i + 1] == sources[..i] + [sources[i]];
        var r := reports[key];
        reports := reports[key := Report(r.errors + f.errors, r.warnings + f.warnings)];
      }
      assert sources[..|sources|] == sources;
      return None;
    }

    method AddVirtualHosts(vhs: seq<VirtualHost>, vhReports: seq<VirtualHostReport>) returns (err: Option<ReportError>)
      requires |vhs| == |vhReports|
      modifies this
      ensures err.None? <==> AllChargeable(old(reports), VirtualHostFindings(vhs, vhReports))
      ensures err.None? ==> reports == ApplyAll(old(reports), VirtualHostFindings(vhs, vhReports))
    {
      ghost var all := VirtualHostFindings(vhs, vhReports);
      for i := 0 to |vhs|
        invariant AllChargeable(old(reports), all[..i])
        invariant reports == ApplyAll(old(reports), all[..i])
      {
        var errors, warnings := GetVirtualHostLevelErrorsAndWarnings(vhReports[i]);
        ghost var f := all[i];
        err := AddResult(Finding(vhs[i].metadata, errors, warnings));
        if err.Some? {
          assert !Chargeable(old(reports), f);
          return;
        }
        assert all[..i + 1] == all[..i] + [f];
        ApplyAllSnoc(old(reports), all[..i], f);
      }
      assert all[..|vhs|] == all;
      return None;
    }

    method AddHybridReport(rc: RouteConfigName, l: Listener, entries: seq<(string, MatchedListenerReport)>)
      returns (err: Option<ReportError>)
      modifies this
      ensures err.None? <==> PartsChargeable(old(reports), Parts(rc, l, HybridReport(entries)))
      ensures err.None? ==> reports == ApplyAll(old(reports), PartFindings(Parts(rc, l, HybridReport(entries))))
    {
      ghost var parts := Parts(rc, l, HybridReport(entries));
      var mapped := MapMatched(rc, l);
      for i := 0 to |entries|
        invariant PartsChargeable(old(reports), parts[..i])
        invariant reports == ApplyAll(old(reports), PartFindings(parts[..i]))
      {
        var (key, matchedReport) := entries[i];
        assert parts[i] == HybridPart(rc, l, entries[i]);
        var vhs, vhReports := [], [];
        if matchedReport.MatchedHttpReport? {
          if key !in mapped {
            assert !FitsPart(parts[i]);
            return Some(HybridRouteConfigNotFound);
          }
          vhs, vhReports := MatchedVirtualHosts(mapped[key]), matchedReport.http.virtualHosts;
        }
        if |vhs| != |vhReports| {
          assert !FitsPart(parts[i]);
          return Some(VirtualHostsMismatch);
        }
        err := AddVirtualHosts(vhs, vhReports);
        PartStep(old(reports), parts, i);
        if err.Some? {
          return;
        }
      }
      assert parts[..|entries|] == parts;
      return None;
    }

    method AddAggregateReport(rc: RouteConfigName, l: Listener, entries: seq<(string, HttpListenerReport)>)
      returns (err: Option<ReportError>)
      modifies this
      ensures err.None? <==> PartsChargeable(old(reports), Parts(rc, l, AggregateReport(entries)))
      ensures err.None? ==> reports == ApplyAll(old(reports), PartFindings(Parts(rc, l, AggregateReport(entries))))
    {
      ghost var parts := Parts(rc, l, AggregateReport(entries));
      for i := 0 to |entries|
        invariant PartsChargeable(old(reports), parts[..i])
        invariant reports == ApplyAll(old(reports), PartFindings(parts[..i]))
      {
        var (key, httpReport) := entries[i];
        assert parts[i] == AggregatePart(rc, l, entries[i]);
        var vhs := ResolveRefs(ResourcesOf(l), FindChainRefs(rc, l.name, ChainsOf(l), key));
        if |vhs| != |httpReport.virtualHosts| {
          assert !FitsPart(parts[i]);
          return Some(VirtualHostsMismatch);
        }
        err := AddVirtualHosts(vhs, httpReport.virtualHosts);
        PartStep(old(reports), parts, i);
        if err.Some? {
          return;
        }
      }
      assert parts[..|entries|] == parts;
      return None;
    }

    /** The per-type switch of `AddProxyValidationResult`. */
    method AddTypeReport(rc: RouteConfigName, l: Listener, report: ListenerTypeReport) returns (err: Option<ReportError>)
      modifies this
      ensures err.None? <==> PartsChargeable(old(reports), Parts(rc, l, report))
      ensures err.None? ==> reports == ApplyAll(old(reports), PartFindings(Parts(rc, l, report)))
    {
      match report {
        case HttpReport(http) =>
          var vhs := HttpVirtualHosts(l.spec);
          ghost var parts := Parts(rc, l, report);
          if |vhs| != |http.virtualHosts| {
            assert !FitsPart(parts[0]);
            return Some(VirtualHostsMismatch);
          }
          assert PartFindings(parts) == VirtualHostFindings(vhs, http.virtualHosts);
          err := AddVirtualHosts(vhs, http.virtualHosts);
        case HybridReport(entries) => err := AddHybridReport(rc, l, entries);
        case AggregateReport(entries) => err := AddAggregateReport(rc, l, entries);
        case TcpReport(_) => return None;
        case NoTypeReport => return None;
      }
    }

    /** On an error the reports may be half updated; the caller then writes nothing. */
    method AddProxyValidationResult(rc: RouteConfigName, ls: seq<Listener>, listenerReports: seq<ListenerReport>)
      returns (err: Option<ReportError>)
      modifies this
      ensures err.None? <==> Matches(rc, ls, listenerReports) && AllChargeable(old(reports), Findings(rc, ls, listenerReports))
      ensures err.None? ==> reports == ApplyAll(old(reports), Findings(rc, ls, listenerReports))
    {
      if |listenerReports| != |ls| {
        return Some(ListenersMismatch);
      }
      for i := 0 to |ls|
        invariant Matches(rc, ls[..i], listenerReports[..i])
        invariant AllChargeable(old(reports), Findings(rc, ls[..i], listenerReports[..i]))
        invariant reports == ApplyAll(old(reports), Findings(rc, ls[..i], listenerReports[..i]))
      {
        var errors := GetListenerLevelErrors(listenerReports[i]);
        err := AddResult(Finding(ls[i].metadata, errors, listenerReports[i].warnings));
        if err.None? {
          err := AddTypeReport(rc, ls[i], listenerReports[i].typeReport);
        }
        ListenerStep(old(reports), rc, ls, listenerReports, i);
        if err.Some? {
          return;
        }
      }
      assert ls[..|ls|] == ls && listenerReports[..|ls|] == listenerReports;
      return None;
    }
  }

  ghost predicate PartsChargeable(reports: Reports, parts: seq<Option<Part>>) {
    Fits(parts) && AllChargeable(reports, PartFindings(parts))
  }

  lemma {:induction false} ApplyAllConcat(reports: Reports, a: seq<Finding>, b: seq<Finding>)
    ensures AllChargeable(reports, a + b) <==> AllChargeable(reports, a) && AllChargeable(reports, b)
    ensures AllChargeable(reports, a + b) ==> ApplyAll(reports, a + b) == ApplyAll(ApplyAll(reports, a), b)
  {
    assert forall i :: 0 <= i < |a| ==> (a + b)[i] == a[i];
    assert forall i :: 0 <= i < |b| ==> (a + b)[|a| + i] == b[i];
    if b == [] {
      assert a + b == a;
    } else if AllChargeable(reports, a + b) {
      var init, last := b[..|b| - 1], b[|b| - 1];
      assert a + b == (a + init) + [last];
      ApplyAllConcat(reports, a, init);
      ApplyAllSnoc(reports, a + init, last);
    }
  }

  lemma {:induction false} PartFindingsPrefix(parts: seq<Option<Part>>, i: nat)
    requires Fits(parts) && i <= |parts|
    ensures PartFindings(parts[..i]) <= PartFindings(parts)
  {
    if i < |parts| {
      var n := |parts| - 1;
      PartFindingsPrefix(parts[..n], i);
      assert parts[..n][..i] == parts[..i];
    } else {
      assert parts[..i] == parts;
    }
  }

  /** Adding part i to the parts before it, and what its failure means for the whole. */
  lemma PartStep(reports: Reports, parts: seq<Option<Part>>, i: nat)
    requires i < |parts| && PartsChargeable(reports, parts[..i])
    requires FitsPart(parts[i])
    ensures var f := VirtualHostFindings(parts[i].value.virtualHosts, parts[i].value.reports);
      && (PartsChargeable(reports, parts[..i + 1]) <==> AllChargeable(reports, f))
      && (AllChargeable(reports, f) ==>
            ApplyAll(reports, PartFindings(parts[..i + 1])) == ApplyAll(ApplyAll(reports, PartFindings(parts[..i])), f))
    ensures PartsChargeable(reports, parts) ==> PartsChargeable(reports, parts[..i + 1])
  {
    var f := VirtualHostFindings(parts[i].value.virtualHosts, parts[i].value.reports);
    assert parts[..i + 1][..i] == parts[..i];
    assert PartFindings(parts[..i + 1]) == PartFindings(parts[..i]) + f;
    ApplyAllConcat(reports, PartFindings(parts[..i]), f);
    if PartsChargeable(reports, parts) {
      PartFindingsPrefix(parts, i + 1);
    }
  }

  ghost predicate ProxyChargeable(reports: Reports, rc: RouteConfigName, ls: seq<Listener>, rs: seq<ListenerReport>) {
    Matches(rc, ls, rs) && AllChargeable(reports, Findings(rc, ls, rs))
  }

  lemma FindingsSnoc(rc: RouteConfigName, ls: seq<Listener>, rs: seq<ListenerReport>, i: nat)
    requires |ls| == |rs| && i < |ls| && Matches(rc, ls[..i], rs[..i])
    ensures var parts := Parts(rc, ls[i], rs[i].typeReport);
      && (Matches(rc, ls[..i + 1], rs[..i + 1]) <==> Fits(parts))
      && (Fits(parts) ==> Findings(rc, ls[..i + 1], rs[..i + 1])
                          == Findings(rc, ls[..i], rs[..i]) + ([ListenerFinding(ls[i], rs[i])] + PartFindings(parts)))
  {
    hide Parts, Fits, PartFindings, ListenerFinding;
    MatchesSnoc(rc, ls, rs, i);
    var a, b, parts := ls[..i + 1], rs[..i + 1], Parts(rc, ls[i], rs[i].typeReport);
    if Fits(parts) {
      assert a[..i] == ls[..i] && b[..i] == rs[..i] && a[i] == ls[i] && b[i] == rs[i];
      assert Findings(rc, a, b) == Findings(rc, a[..i], b[..i]) + [ListenerFinding(a[i], b[i])] + PartFindings(parts);
    }
  }

  lemma MatchesSnoc(rc: RouteConfigName, ls: seq<Listener>, rs: seq<ListenerReport>, i: nat)
    requires |ls| == |rs| && i < |ls| && Matches(rc, ls[..i], rs[..i])
    ensures Matches(rc, ls[..i + 1], rs[..i + 1]) <==> Fits(Parts(rc, ls[i], rs[i].typeReport))
  {
    hide Parts, Fits;
    var a, b := ls[..i + 1], rs[..i + 1];
    assert a[i] == ls[i] && b[i] == rs[i];
    assert forall j :: 0 <= j < i ==> a[j] == ls[..i][j] && b[j] == rs[..i][j];
  }

  lemma {:induction false} FindingsPrefix(rc: RouteConfigName, ls: seq<Listener>, rs: seq<ListenerReport>, i: nat)
    requires Matches(rc, ls, rs) && i <= |ls|
    ensures Matches(rc, ls[..i], rs[..i])
    ensures Findings(rc, ls[..i], rs[..i]) <= Findings(rc, ls, rs)
    decreases |ls| - i
  {
    hide Findings, Parts, Fits;
    if i < |ls| {
      FindingsPrefix(rc, ls, rs, i + 1);
      FindingsSnoc(rc, ls, rs, i);
    } else {
      assert ls[..i] == ls && rs[..i] == rs;
    }
  }

  /** Adding listener i to the listeners before it, and what its failure means for the whole proxy. */
  lemma ListenerStep(reports: Reports, rc: RouteConfigName, ls: seq<Listener>, rs: seq<ListenerReport>, i: nat)
    requires |ls| == |rs| && i < |ls| && ProxyChargeable(reports, rc, ls[..i], rs[..i])
    ensures var f, parts := ListenerFinding(ls[i], rs[i]), Parts(rc, ls[i], rs[i].typeReport);
      && (ProxyChargeable(reports, rc, ls[..i + 1], rs[..i + 1]) <==> Chargeable(reports, f) && PartsChargeable(reports, parts))
      && (Chargeable(reports, f) && PartsChargeable(reports, parts) ==>
            ApplyAll(reports, Findings(rc, ls[..i + 1], rs[..i + 1]))
            == ApplyAll(Apply(ApplyAll(reports, Findings(rc, ls[..i], rs[..i])), f), PartFindings(parts)))
    ensures ProxyChargeable(reports, rc, ls, rs) ==> ProxyChargeable(reports, rc, ls[..i + 1], rs[..i + 1])
  {
    var f, parts := ListenerFinding(ls[i], rs[i]), Parts(rc, ls[i], rs[i].typeReport);
    FindingsSnoc(rc, ls, rs, i);
    if Fits(parts) {
      ApplyThree(reports, Findings(rc, ls[..i], rs[..i]), f, PartFindings(parts));
    }
    if ProxyChargeable(reports, rc, ls, rs) {
      FindingsPrefix(rc, ls, rs, i + 1);
    }
  }

  lemma ApplyThree(reports: Reports, before: seq<Finding>, f: Finding, after: seq<Finding>)
    requires AllChargeable(reports, before)
    ensures AllChargeable(reports, before + ([f] + after)) <==> Chargeable(reports, f) && AllChargeable(reports, after)
    ensures Chargeable(reports, f) && AllChargeable(reports, after) ==>
      ApplyAll(reports, before + ([f] + after)) == ApplyAll(Apply(ApplyAll(reports, before), f), after)
  {
    assert before + ([f] + after) == (before + [f]) + after;
    ApplyAllConcat(reports, before + [f], after);
    if Chargeable(reports, f) {
      ApplyAllSnoc(reports, before, f);
    } else {
      assert (before + [f])[|before|] == f;
    }
  }
}
