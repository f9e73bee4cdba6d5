/** Source metadata of generated objects (projects/gateway/pkg/translator/config_source.go) and the
    acceptance test over resource reports (projects/gateway/pkg/reporting/check_source_reports.go). */
module Sources {
  import opened Common
  import opened Sequences

  /** A reference to the user resource (Gateway, VirtualService, ...) an object was generated from. */
  datatype SourceRef = SourceRef(kind: string, name: string, namespace: string, observedGeneration: int)

  /** What `ResourceReports.Find` compares; the observed generation plays no part. */
  datatype SourceKey = SourceKey(kind: string, name: string, namespace: string)

  function KeyOf(src: SourceRef): SourceKey {
    SourceKey(src.kind, src.name, src.namespace)
  }

  datatype Report = Report(errors: seq<string>, warnings: seq<string>)

  type Reports = map<SourceKey, Report>

  /** The `OpaqueMetadata` oneof: static sources, the deprecated struct form (which may fail to parse), or nothing. */
  datatype Metadata = NoMetadata | StaticMeta(sources: seq<SourceRef>) | StructMeta(sources: seq<SourceRef>) | MalformedStruct

  datatype MetadataError = ParseError

  /** `translator.ObjectWithMetadata`: a named listener or virtual host carrying its sources. */
  datatype Object<+T> = Object(name: string, metadata: Metadata, spec: T)

  function GetSourceMeta(meta: Metadata): Result<seq<SourceRef>, MetadataError> {
    match meta
    case NoMetadata => Ok([])
    case StaticMeta(sources) => Ok(sources)
    case StructMeta(sources) => Ok(sources)
    case MalformedStruct => Err(ParseError)
  }

  /** The set of resources an object was generated from. */
  function SourceKeys(meta: Metadata): set<SourceKey> {
    match GetSourceMeta(meta)
    case Ok(sources) => set s | s in sources :: KeyOf(s)
    case Err(_) => {}
  }

  /** A resource is in error when its report holds an error; a resource without a report is not. */
  predicate Errored(reports: Reports, key: SourceKey) {
    key in reports && reports[key].errors != []
  }

  predicate AcceptedKeys(reports: Reports, keys: set<SourceKey>) {
    forall key <- keys :: !Errored(reports, key)
  }

  predicate Accepted(reports: Reports, meta: Metadata) {
    AcceptedKeys(reports, SourceKeys(meta))
  }

  /** Two references are to one resource exactly when kind, name and namespace agree; the key carries these. */
  lemma SameKeyIff(a: SourceRef, b: SourceRef)
    ensures KeyOf(a) == KeyOf(b) <==> a.kind == b.kind && a.name == b.name && a.namespace == b.namespace
    ensures KeyOf(a).kind == a.kind && KeyOf(a).name == a.name && KeyOf(a).namespace == a.namespace
  {
  }

  /** An object is accepted exactly when none of its sources has a report with an error in it; metadata of either form
      counts, and an object without metadata has no sources. */
  lemma AcceptedIff(reports: Reports, meta: Metadata)
    ensures Accepted(reports, meta) <==>
      (meta.StaticMeta? || meta.StructMeta?) ==>
        forall i :: 0 <= i < |meta.sources| ==>
          var key := SourceKey(meta.sources[i].kind, meta.sources[i].name, meta.sources[i].namespace);
          key in reports ==> reports[key].errors == []
  {
    if meta.StaticMeta? || meta.StructMeta? {
      forall i | 0 <= i < |meta.sources| ensures KeyOf(meta.sources[i]) in SourceKeys(meta) {
      }
    }
  }

  method AllSourcesAccepted(reports: Reports, meta: Metadata) returns (r: Result<bool, MetadataError>)
    ensures r.Err? <==> meta.MalformedStruct?
    ensures r.Ok? ==> r.value == Accepted(reports, meta)
  {
    var parsed := GetSourceMeta(meta);
    if parsed.Err? {
      return Err(parsed.error);
    }
    var sources := parsed.value;
    var allSourcesAccepted := true;
    for i := 0 to |sources|
      invariant allSourcesAccepted <==> forall j :: 0 <= j < i ==> !Errored(reports, KeyOf(sources[j]))
    {
      var key := KeyOf(sources[i]);
      if key in reports && reports[key].errors != [] {
        allSourcesAccepted := false;
      }
    }
    assert forall j :: 0 <= j < |sources| ==> KeyOf(sources[j]) in SourceKeys(meta);
    return Ok(allSourcesAccepted);
  }

  /** The objects whose acceptance equals `verdict`, in order. */
  function Pick<T>(reports: Reports, s: seq<Object<T>>, verdict: bool): seq<Object<T>> {
    if s == [] then []
    else if Accepted(reports, s[0].metadata) == verdict then [s[0]] + Pick(reports, s[1..], verdict)
    else Pick(reports, s[1..], verdict)
  }

  predicate AnyMalformed<T>(s: seq<Object<T>>) {
    exists i :: 0 <= i < |s| && s[i].metadata.MalformedStruct?
  }

  /** The scan shared by `forEachListener` and `forEachVhost`: collects the objects with the given verdict and
      stops at the first one whose metadata does not parse. */
  method CollectByVerdict<T>(reports: Reports, s: seq<Object<T>>, verdict: bool)
    returns (r: Result<seq<Object<T>>, MetadataError>)
    ensures r.Err? <==> AnyMalformed(s)
    ensures r.Ok? ==> r.value == Pick(reports, s, verdict)
  {
    var picked: seq<Object<T>> := [];
    hide Accepted;
    for i := 0 to |s|
      invariant forall j :: 0 <= j < i ==> !s[j].metadata.MalformedStruct?
      invariant picked == Pick(reports, s[..i], verdict)
    {
      var accepted := AllSourcesAccepted(reports, s[i].metadata);
      if accepted.Err? {
        return Err(accepted.error);
      }
      PickSnoc(reports, s, i, verdict);
      if accepted.value == verdict {
        picked := picked + [s[i]];
      }
    }
    assert s[..|s|] == s;
    return Ok(picked);
  }

  /** What Pick selects: exactly the members of `s` with that verdict. */
  lemma {:induction false} PickMembers<T>(reports: Reports, s: seq<Object<T>>, verdict: bool)
    ensures forall x :: x in Pick(reports, s, verdict) <==> x in s && Accepted(reports, x.metadata) == verdict
    ensures forall i :: 0 <= i < |Pick(reports, s, verdict)| ==>
      Pick(reports, s, verdict)[i] in s && Accepted(reports, Pick(reports, s, verdict)[i].metadata) == verdict
  {
    if s != [] {
      PickMembers(reports, s[1..], verdict);
      assert s == [s[0]] + s[1..];
    }
  }

  lemma {:induction false} PickConcat<T>(reports: Reports, a: seq<Object<T>>, b: seq<Object<T>>, verdict: bool)
    ensures Pick(reports, a + b, verdict) == Pick(reports, a, verdict) + Pick(reports, b, verdict)
  {
    hide Accepted;
    if a == [] {
      assert a + b == b;
    } else {
      hide Pick;
      PickConcat(reports, a[1..], b, verdict);
      assert (a + b)[1..] == a[1..] + b && (a + b)[0] == a[0];
      PickCons(reports, a, verdict);
      PickCons(reports, a + b, verdict);
      var own := if Accepted(reports, a[0].metadata) == verdict then [a[0]] else [];
      SeqAssociates(own, Pick(reports, a[1..], verdict), Pick(reports, b, verdict));
    }
  }

  lemma PickCons<T>(reports: Reports, s: seq<Object<T>>, verdict: bool)
    requires s != []
    ensures Pick(reports, s, verdict) == (if Accepted(reports, s[0].metadata) == verdict then [s[0]] else []) + Pick(reports, s[1..], verdict)
  {
    hide Accepted;
  }

  lemma PickSnoc<T>(reports: Reports, s: seq<Object<T>>, i: nat, verdict: bool)
    requires i < |s|
    ensures Pick(reports, s[..i + 1], verdict)
         == Pick(reports, s[..i], verdict) + if Accepted(reports, s[i].metadata) == verdict then [s[i]] else []
  {
    hide Accepted;
    assert s[..i + 1] == s[..i] + [s[i]];
    PickConcat(reports, s[..i], [s[i]], verdict);
    assert [s[i]][1..] == [];
  }

  /** A sequence of one verdict is picked whole by that verdict and contributes nothing to the other. */
  lemma {:induction false} PickUniform<T>(reports: Reports, s: seq<Object<T>>, verdict: bool)
    requires forall x :: x in s ==> Accepted(reports, x.metadata) == verdict
    ensures Pick(reports, s, verdict) == s
    ensures Pick(reports, s, !verdict) == []
  {
    if s != [] {
      assert s[0] in s && forall x :: x in s[1..] ==> x in s;
      PickUniform(reports, s[1..], verdict);
    }
  }
}
