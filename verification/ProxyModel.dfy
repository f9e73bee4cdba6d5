/** The parts of a Gloo Proxy that reconciliation looks at, and the validation report that comes back for it. */
module ProxyModel {
  import opened Common
  import opened Sources

  /** Domains, routes and options of a virtual host: copied around, never inspected. */
  datatype VirtualHostSpec = VirtualHostSpec(config: string)

  type VirtualHost = Object<VirtualHostSpec>

  datatype HttpListener = HttpListener(virtualHosts: seq<VirtualHost>, options: string)

  datatype Matcher = Matcher(repr: string)

  datatype MatchedListener =
    | MatchedHttp(matcher: Matcher, http: HttpListener)
    | MatchedTcp(matcher: Matcher, tcp: string)

  datatype FilterChain = FilterChain(matcher: Matcher, virtualHostRefs: seq<string>, httpOptionsRef: string)

  datatype ListenerType =
    | Http(http: HttpListener)
    | Tcp(tcp: string)
    | Hybrid(matched: seq<MatchedListener>)
    | Aggregate(resources: map<string, VirtualHost>, chains: seq<FilterChain>)

  type Listener = Object<ListenerType>

  /** Go's nil `*VirtualHost`, which a dangling reference of an aggregate listener yields. */
  const NIL_VIRTUAL_HOST: VirtualHost := Object("", NoMetadata, VirtualHostSpec(""))

  function ResolveRef(resources: map<string, VirtualHost>, ref: string): VirtualHost {
    if ref in resources then resources[ref] else NIL_VIRTUAL_HOST
  }

  function ResolveRefs(resources: map<string, VirtualHost>, refs: seq<string>): seq<VirtualHost> {
    seq(|refs|, i requires 0 <= i < |refs| => ResolveRef(resources, refs[i]))
  }

  /** `GetHttpListener().GetVirtualHosts()`: empty for any other listener type. */
  function HttpVirtualHosts(spec: ListenerType): seq<VirtualHost> {
    if spec.Http? then spec.http.virtualHosts else []
  }

  /** `GetHybridListener().GetMatchedListeners()`: empty for any other listener type. */
  function MatchedOf(spec: ListenerType): seq<MatchedListener> {
    if spec.Hybrid? then spec.matched else []
  }

  function MatchedVirtualHosts(m: MatchedListener): seq<VirtualHost> {
    if m.MatchedHttp? then m.http.virtualHosts else []
  }

  predicate DistinctNames<T>(s: seq<Object<T>>) {
    forall i, j :: 0 <= i < j < |s| ==> s[i].name != s[j].name
  }

  /** The first object called `name`. */
  function Lookup<T>(s: seq<Object<T>>, name: string): Option<Object<T>> {
    if s == [] then None
    else if s[0].name == name then Some(s[0])
    else Lookup(s[1..], name)
  }

  lemma {:induction false} LookupSound<T>(s: seq<Object<T>>, name: string)
    ensures Lookup(s, name).Some? ==> Lookup(s, name).value in s && Lookup(s, name).value.name == name
    ensures Lookup(s, name).None? ==> forall i :: 0 <= i < |s| ==> s[i].name != name
  {
    if s != [] {
      LookupSound(s[1..], name);
      if Lookup(s, name).None? {
        assert forall i :: 0 < i < |s| ==> s[i] == s[1..][i - 1];
      }
    }
  }

  lemma {:induction false} LookupUnique<T>(s: seq<Object<T>>, k: nat)
    requires k < |s| && DistinctNames(s)
    ensures Lookup(s, s[k].name) == Some(s[k])
  {
    if k > 0 {
      LookupUnique(s[1..], k - 1);
    }
  }

  // ---- validation reports ----

  datatype RouteReport = RouteReport(errors: seq<string>, warnings: seq<string>)

  datatype VirtualHostReport = VirtualHostReport(errors: seq<string>, routes: seq<RouteReport>)

  datatype HttpListenerReport = HttpListenerReport(errors: seq<string>, virtualHosts: seq<VirtualHostReport>)

  datatype TcpListenerReport = TcpListenerReport(errors: seq<string>, hosts: seq<seq<string>>)

  datatype MatchedListenerReport =
    | MatchedHttpReport(http: HttpListenerReport)
    | MatchedTcpReport(tcp: TcpListenerReport)
    | MatchedNoReport

  /** The Go maps of the hybrid and aggregate reports are entry lists: any order of iteration is some list. */
  datatype ListenerTypeReport =
    | HttpReport(http: HttpListenerReport)
    | TcpReport(tcp: TcpListenerReport)
    | HybridReport(matched: seq<(string, MatchedListenerReport)>)
    | AggregateReport(listeners: seq<(string, HttpListenerReport)>)
    | NoTypeReport

  datatype ListenerReport = ListenerReport(errors: seq<string>, warnings: seq<string>, typeReport: ListenerTypeReport)
}
