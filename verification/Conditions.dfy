/** Gateway and HTTPRoute status (projects/gateway2/reports/status.go, reporter.go): conditions built from a report and the
    conditions stored on the resource. */
module Conditions {
  import opened Common

  datatype ConditionStatus = ConditionTrue | ConditionFalse | ConditionUnknown

  /** A zero transition time is Go's zero `metav1.Time`. */
  datatype Condition = Condition(kind: string, status: ConditionStatus, reason: string, message: string,
                                 observedGeneration: int, lastTransitionTime: nat)

  /** `SetCondition` of the report types: appends, without looking for the type. */
  function SetCondition(cs: seq<Condition>, kind: string, status: ConditionStatus, reason: string, message: string): seq<Condition> {
    cs + [Condition(kind, status, reason, message, 0, 0)]
  }

  // ---- k8s.io/apimachinery/pkg/api/meta ----

  function FindStatusCondition(cs: seq<Condition>, kind: string): Option<Condition> {
    if cs == [] then None
    else if cs[0].kind == kind then Some(cs[0])
    else FindStatusCondition(cs[1..], kind)
  }

  function NonZero(t: nat, now: nat): nat {
    if t == 0 then now else t
  }

  function UpdateCondition(stored: Condition, c: Condition, now: nat): Condition {
    var time := if stored.status == c.status then stored.lastTransitionTime else NonZero(c.lastTransitionTime, now);
    Condition(stored.kind, c.status, c.reason, c.message, c.observedGeneration, time)
  }

  /** Updates the first condition of that type in place, or appends. */
  function SetStatusCondition(cs: seq<Condition>, c: Condition, now: nat): seq<Condition> {
    if cs == [] then [c.(lastTransitionTime := NonZero(c.lastTransitionTime, now))]
    else if cs[0].kind == c.kind then [UpdateCondition(cs[0], c, now)] + cs[1..]
    else [cs[0]] + SetStatusCondition(cs[1..], c, now)
  }

  // ---- specification ----

  predicate DistinctKinds(cs: seq<Condition>) {
    forall i, j :: 0 <= i < j < |cs| ==> cs[i].kind != cs[j].kind
  }

  /** What becomes of one reported condition. */
  function Merge(c: Condition, stored: Option<Condition>, generation: int, now: nat): Condition {
    match stored
    case None => c.(observedGeneration := generation, lastTransitionTime := NonZero(c.lastTransitionTime, now))
    case Some(o) => UpdateCondition(o, c.(observedGeneration := generation), now)
  }

  /** Position by position, for reports whose types are distinct. */
  function Merged(report: seq<Condition>, stored: seq<Condition>, generation: int, now: nat): seq<Condition> {
    seq(|report|, i requires 0 <= i < |report| => Merge(report[i], FindStatusCondition(stored, report[i].kind), generation, now))
  }

  /** The loop as written, for any report. */
  function BuildConditions(report: seq<Condition>, stored: seq<Condition>, generation: int, now: nat): seq<Condition> {
    if report == [] then []
    else
      var n := |report| - 1;
      var c, before := report[n].(observedGeneration := generation), BuildConditions(report[..n], stored, generation, now);
      var copied := match FindStatusCondition(stored, c.kind) case None => before case Some(o) => before + [o];
      SetStatusCondition(copied, c, now)
  }

  /** A condition every status must have, with the value assumed when nothing was reported. */
  datatype Mandatory = Mandatory(kind: string, status: ConditionStatus, reason: string)

  const GATEWAY_MANDATORY := [Mandatory("Accepted", ConditionTrue, "Accepted"), Mandatory("Programmed", ConditionTrue, "Programmed")]

  const LISTENER_MANDATORY := [
    Mandatory("Accepted", ConditionTrue, "Accepted"), Mandatory("Conflicted", ConditionFalse, "NoConflicts"),
    Mandatory("ResolvedRefs", ConditionTrue, "ResolvedRefs"), Mandatory("Programmed", ConditionTrue, "Programmed")]

  const PARENT_MANDATORY := [Mandatory("Accepted", ConditionTrue, "Accepted"), Mandatory("ResolvedRefs", ConditionTrue, "ResolvedRefs")]

  function AddMissing(cs: seq<Condition>, ms: seq<Mandatory>): seq<Condition> {
    if ms == [] then cs
    else
      var n := |ms| - 1;
      var before := AddMissing(cs, ms[..n]);
      if FindStatusCondition(before, ms[n].kind).None? then SetCondition(before, ms[n].kind, ms[n].status, ms[n].reason, "") else before
  }

  function FullReport(cs: seq<Condition>, ms: seq<Mandatory>, stored: seq<Condition>, generation: int, now: nat): seq<Condition> {
    BuildConditions(AddMissing(cs, ms), stored, generation, now)
  }

  // ---- lookups ----

  lemma {:induction false} FindIsFirst(cs: seq<Condition>, kind: string)
    ensures FindStatusCondition(cs, kind).None? <==> forall i :: 0 <= i < |cs| ==> cs[i].kind != kind
    ensures FindStatusCondition(cs, kind).Some? ==> FindStatusCondition(cs, kind).value.kind == kind
  {
    if cs != [] {
      FindIsFirst(cs[1..], kind);
      assert forall i :: 0 < i < |cs| ==> cs[i] == cs[1..][i - 1];
    }
  }

  lemma {:induction false} FindAt(cs: seq<Condition>, k: nat)
    requires k < |cs| && DistinctKinds(cs)
    ensures FindStatusCondition(cs, cs[k].kind) == Some(cs[k])
  {
    if k > 0 {
      FindAt(cs[1..], k - 1);
    }
  }

  lemma {:induction false} SetFresh(cs: seq<Condition>, c: Condition, now: nat)
    requires forall i :: 0 <= i < |cs| ==> cs[i].kind != c.kind
    ensures SetStatusCondition(cs, c, now) == cs + [c.(lastTransitionTime := NonZero(c.lastTransitionTime, now))]
    ensures forall o: Condition :: o.kind == c.kind ==> SetStatusCondition(cs + [o], c, now) == cs + [UpdateCondition(o, c, now)]
  {
    if cs == [] {
      assert forall o: Condition :: [] + [o] == [o];
    } else {
      SetFresh(cs[1..], c, now);
      forall o: Condition | o.kind == c.kind ensures SetStatusCondition(cs + [o], c, now) == cs + [UpdateCondition(o, c, now)] {
        assert (cs + [o])[1..] == cs[1..] + [o];
        assert cs == [cs[0]] + cs[1..];
      }
    }
  }

  // ---- distinct types: the loop is a position-by-position merge ----

  lemma MergedKinds(report: seq<Condition>, stored: seq<Condition>, generation: int, now: nat)
    ensures |Merged(report, stored, generation, now)| == |report|
    ensures forall i :: 0 <= i < |report| ==> Merged(report, stored, generation, now)[i].kind == report[i].kind
  {
    forall i | 0 <= i < |report| ensures Merged(report, stored, generation, now)[i].kind == report[i].kind {
      FindIsFirst(stored, report[i].kind);
    }
  }

  lemma {:induction false} BuildIsMerge(report: seq<Condition>, stored: seq<Condition>, generation: int, now: nat)
    requires DistinctKinds(report)
    ensures BuildConditions(report, stored, generation, now) == Merged(report, stored, generation, now)
  {
    hide Merged, FindStatusCondition, SetStatusCondition;
    MergedKinds(report, stored, generation, now);
    if report != [] {
      var n := |report| - 1;
      var c := report[n].(observedGeneration := generation);
      var before := Merged(report[..n], stored, generation, now);
      BuildIsMerge(report[..n], stored, generation, now);
      MergedKinds(report[..n], stored, generation, now);
      FindIsFirst(stored, c.kind);
      SetFresh(before, c, now);
      MergedSnoc(report, stored, generation, now);
    }
  }

  lemma MergedSnoc(report: seq<Condition>, stored: seq<Condition>, generation: int, now: nat)
    requires report != []
    ensures var n := |report| - 1;
      Merged(report, stored, generation, now) ==
      Merged(report[..n], stored, generation, now) + [Merge(report[n], FindStatusCondition(stored, report[n].kind), generation, now)]
  {
  }

  /** Merging again changes nothing, whichever of the report and the stored conditions the result has replaced. */
  lemma MergedAgain(report: seq<Condition>, stored: seq<Condition>, generation: int, now: nat, later: nat)
    requires DistinctKinds(report)
    ensures var r := Merged(report, stored, generation, now);
      && Merged(report, r, generation, later) == r
      && Merged(r, r, generation, later) == r
      && (now > 0 ==> Merged(r, stored, generation, later) == r)
  {
    hide FindStatusCondition;
    var r := Merged(report, stored, generation, now);
    MergedKinds(report, stored, generation, now);
    forall i | 0 <= i < |r| ensures FindStatusCondition(r, report[i].kind) == Some(r[i]) {
      FindAt(r, i);
    }
    assert Merged(report, r, generation, later) == r;
    assert Merged(r, r, generation, later) == r;
    assert now > 0 ==> Merged(r, stored, generation, later) == r;
  }

  // ---- mandatory conditions ----

  predicate HasKind(cs: seq<Condition>, kind: string) {
    exists i :: 0 <= i < |cs| && cs[i].kind == kind
  }

  predicate HasAll(cs: seq<Condition>, ms: seq<Mandatory>) {
    forall i :: 0 <= i < |ms| ==> HasKind(cs, ms[i].kind)
  }

  lemma {:induction false} AddMissingSpec(cs: seq<Condition>, ms: seq<Mandatory>)
    ensures var r := AddMissing(cs, ms);
      && cs <= r && HasAll(r, ms) && (DistinctKinds(cs) ==> DistinctKinds(r)) && (HasAll(cs, ms) ==> r == cs)
  {
    if ms != [] {
      var n := |ms| - 1;
      var before, r := AddMissing(cs, ms[..n]), AddMissing(cs, ms);
      AddMissingSpec(cs, ms[..n]);
      FindIsFirst(before, ms[n].kind);
      assert forall i :: 0 <= i < n ==> ms[..n][i] == ms[i];
      forall i | 0 <= i < |ms| ensures HasKind(r, ms[i].kind) {
        if i < n {
          assert HasKind(before, ms[..n][i].kind);
          var k :| 0 <= k < |before| && before[k].kind == ms[i].kind;
          assert r[k] == before[k];
        } else if FindStatusCondition(before, ms[n].kind).None? {
          assert r[|before|].kind == ms[n].kind;
        }
      }
    }
  }

  ghost predicate IsFirstMandatory(ms: seq<Mandatory>, kind: string, m: int) {
    0 <= m < |ms| && ms[m].kind == kind && forall j :: 0 <= j < m ==> ms[j].kind != kind
  }

  /** `c` is what counts as reported for its type: a reported condition, or for a mandatory type that was not reported the
      value assumed for it. */
  ghost predicate IsReportOf(report: seq<Condition>, ms: seq<Mandatory>, c: Condition) {
    || c in report
    || (!HasKind(report, c.kind) && exists m :: IsFirstMandatory(ms, c.kind, m) && c == Condition(c.kind, ms[m].status, ms[m].reason, "", 0, 0))
  }

  /** Added conditions carry the status and reason assumed for their type, and nothing else is added. */
  lemma {:induction false} AddMissingValues(cs: seq<Condition>, ms: seq<Mandatory>, i: nat)
    requires i < |AddMissing(cs, ms)|
    ensures IsReportOf(cs, ms, AddMissing(cs, ms)[i])
  {
    if ms != [] {
      var n := |ms| - 1;
      var before, c := AddMissing(cs, ms[..n]), AddMissing(cs, ms)[i];
      FindIsFirst(before, ms[n].kind);
      assert forall j :: 0 <= j < n ==> ms[..n][j] == ms[j];
      if i < |before| {
        AddMissingValues(cs, ms[..n], i);
        if c !in cs {
          var m :| IsFirstMandatory(ms[..n], c.kind, m) && c == Condition(c.kind, ms[..n][m].status, ms[..n][m].reason, "", 0, 0);
          assert IsFirstMandatory(ms, c.kind, m);
        }
      } else {
        NewIsFirst(cs, ms);
        assert IsFirstMandatory(ms, c.kind, n);
      }
    }
  }

  /** A type that had to be added was neither reported nor mandatory before. */
  lemma NewIsFirst(cs: seq<Condition>, ms: seq<Mandatory>)
    requires ms != [] && FindStatusCondition(AddMissing(cs, ms[..|ms| - 1]), ms[|ms| - 1].kind).None?
    ensures var n := |ms| - 1;
      !HasKind(cs, ms[n].kind) && IsFirstMandatory(ms, ms[n].kind, n)
  {
    var n := |ms| - 1;
    var before := AddMissing(cs, ms[..n]);
    FindIsFirst(before, ms[n].kind);
    AddMissingSpec(cs, ms[..n]);
    assert forall i :: 0 <= i < |cs| ==> cs[i] == before[i];
    forall j | 0 <= j < n ensures ms[j].kind != ms[n].kind {
      assert HasKind(before, ms[..n][j].kind);
    }
  }

  // ---- the promises of a built status ----

  ghost predicate FirstOfKind(cs: seq<Condition>, kind: string, k: int) {
    0 <= k < |cs| && cs[k].kind == kind && forall j :: 0 <= j < k ==> cs[j].kind != kind
  }

  /** The condition says what was reported, for this generation; it keeps the transition time of the stored condition of its
      type exactly when the status did not change, and otherwise takes the reported time, or now if there is none. */
  ghost predicate GoodCondition(reported: Condition, stored: seq<Condition>, generation: int, now: nat, c: Condition) {
    && c.kind == reported.kind && c.status == reported.status && c.reason == reported.reason && c.message == reported.message
    && c.observedGeneration == generation
    && (forall k :: FirstOfKind(stored, c.kind, k) && stored[k].status == c.status ==> c.lastTransitionTime == stored[k].lastTransitionTime)
    && ((forall k :: FirstOfKind(stored, c.kind, k) ==> stored[k].status != c.status) ==>
          c.lastTransitionTime == if reported.lastTransitionTime == 0 then now else reported.lastTransitionTime)
  }

  /** Every mandatory and every reported type is there, no type twice, and each condition is good. */
  ghost predicate GoodStatus(report: seq<Condition>, ms: seq<Mandatory>, stored: seq<Condition>, generation: int, now: nat, r: seq<Condition>) {
    && HasAll(r, ms) && DistinctKinds(r)
    && (forall i :: 0 <= i < |report| ==> HasKind(r, report[i].kind))
    && forall i :: 0 <= i < |r| ==> SaysWhatWasReported(report, ms, stored, generation, now, r[i])
  }

  ghost predicate SaysWhatWasReported(report: seq<Condition>, ms: seq<Mandatory>, stored: seq<Condition>, generation: int, now: nat, c: Condition) {
    exists reported :: IsReportOf(report, ms, reported) && GoodCondition(reported, stored, generation, now, c)
  }

  lemma MergeIsGood(reported: Condition, stored: seq<Condition>, generation: int, now: nat)
    ensures GoodCondition(reported, stored, generation, now, Merge(reported, FindStatusCondition(stored, reported.kind), generation, now))
  {
    FindIsFirst(stored, reported.kind);
    forall k | FirstOfKind(stored, reported.kind, k) ensures FindStatusCondition(stored, reported.kind) == Some(stored[k]) {
      FindFirst(stored, k);
    }
    if FindStatusCondition(stored, reported.kind).Some? {
      var k := FirstExists(stored, reported.kind);
    }
  }

  lemma {:induction false} FindFirst(cs: seq<Condition>, k: nat)
    requires k < |cs| && forall j :: 0 <= j < k ==> cs[j].kind != cs[k].kind
    ensures FindStatusCondition(cs, cs[k].kind) == Some(cs[k])
  {
    if k > 0 {
      FindFirst(cs[1..], k - 1);
    }
  }

  lemma {:induction false} FirstExists(cs: seq<Condition>, kind: string) returns (k: int)
    requires FindStatusCondition(cs, kind).Some?
    ensures FirstOfKind(cs, kind, k)
  {
    if cs[0].kind == kind {
      k := 0;
    } else {
      k := FirstExists(cs[1..], kind);
      assert forall j :: 0 < j < |cs| ==> cs[j] == cs[1..][j - 1];
      k := k + 1;
    }
  }

  lemma BuiltStatusIsGood(report: seq<Condition>, ms: seq<Mandatory>, stored: seq<Condition>, generation: int, now: nat)
    requires DistinctKinds(report)
    ensures GoodStatus(report, ms, stored, generation, now, FullReport(report, ms, stored, generation, now))
  {
    hide AddMissing, BuildConditions, FindStatusCondition, Merge, GoodCondition, IsReportOf;
    var full := AddMissing(report, ms);
    var r := FullReport(report, ms, stored, generation, now);
    AddMissingSpec(report, ms);
    BuildIsMerge(full, stored, generation, now);
    MergedKinds(full, stored, generation, now);
    SameKinds(full, r, ms);
    forall i | 0 <= i < |report| ensures HasKind(r, report[i].kind) {
      assert r[i].kind == full[i].kind;
    }
    forall i | 0 <= i < |r| ensures SaysWhatWasReported(report, ms, stored, generation, now, r[i]) {
      AddMissingValues(report, ms, i);
      MergeIsGood(full[i], stored, generation, now);
      assert IsReportOf(report, ms, full[i]) && GoodCondition(full[i], stored, generation, now, r[i]);
    }
  }

  lemma SameKinds(a: seq<Condition>, b: seq<Condition>, ms: seq<Mandatory>)
    requires |a| == |b| && forall i :: 0 <= i < |a| ==> a[i].kind == b[i].kind
    ensures HasAll(a, ms) ==> HasAll(b, ms)
    ensures DistinctKinds(a) ==> DistinctKinds(b)
  {
    if HasAll(a, ms) {
      forall i | 0 <= i < |ms| ensures HasKind(b, ms[i].kind) {
        assert HasKind(a, ms[i].kind);
        var k :| 0 <= k < |a| && a[k].kind == ms[i].kind;
        assert b[k].kind == ms[i].kind;
      }
    }
  }

  /** Rebuilding against its own output, from the original report or from one overwritten with the output, at any later
      time, returns the same conditions with the same times; so does rebuilding an overwritten report against the
      conditions stored before, which is what a second listener of the same name goes through. */
  lemma RebuildIsFixpoint(report: seq<Condition>, ms: seq<Mandatory>, stored: seq<Condition>, generation: int, now: nat, later: nat)
    requires DistinctKinds(report)
    ensures var r := FullReport(report, ms, stored, generation, now);
      && FullReport(report, ms, r, generation, later) == r
      && FullReport(r, ms, r, generation, later) == r
      && (now > 0 ==> FullReport(r, ms, stored, generation, later) == r)
  {
    hide AddMissing, BuildConditions, Merged, FindStatusCondition;
    var full := AddMissing(report, ms);
    var r := FullReport(report, ms, stored, generation, now);
    AddMissingSpec(report, ms);
    BuildIsMerge(full, stored, generation, now);
    MergedKinds(full, stored, generation, now);
    SameKinds(full, r, ms);
    AddMissingSpec(r, ms);
    BuildIsMerge(full, r, generation, later);
    BuildIsMerge(r, r, generation, later);
    BuildIsMerge(r, stored, generation, later);
    MergedAgain(full, stored, generation, now, later);
  }

  // ---- nothing reported ----

  lemma {:induction false} AllMissing(ms: seq<Mandatory>)
    requires forall i, j :: 0 <= i < j < |ms| ==> ms[i].kind != ms[j].kind
    ensures AddMissing([], ms) == seq(|ms|, i requires 0 <= i < |ms| => Condition(ms[i].kind, ms[i].status, ms[i].reason, "", 0, 0))
  {
    if ms != [] {
      hide FindStatusCondition;
      var n := |ms| - 1;
      AllMissing(ms[..n]);
      var before := AddMissing([], ms[..n]);
      FindIsFirst(before, ms[n].kind);
      assert forall i :: 0 <= i < n ==> before[i].kind == ms[i].kind;
      assert AddMissing([], ms) == before + [Condition(ms[n].kind, ms[n].status, ms[n].reason, "", 0, 0)];
    }
  }

  lemma HealthyStatus(ms: seq<Mandatory>, generation: int, now: nat)
    requires forall i, j :: 0 <= i < j < |ms| ==> ms[i].kind != ms[j].kind
    ensures FullReport([], ms, [], generation, now) == seq(|ms|, i requires 0 <= i < |ms| => Condition(ms[i].kind, ms[i].status, ms[i].reason, "", generation, now))
  {
    AllMissing(ms);
    var full := AddMissing([], ms);
    BuildIsMerge(full, [], generation, now);
  }

  /** A resource nothing was reported about is healthy: these conditions, in this order. */
  lemma HealthyDefaults(generation: int, now: nat)
    ensures FullReport([], GATEWAY_MANDATORY, [], generation, now) ==
      [Condition("Accepted", ConditionTrue, "Accepted", "", generation, now), Condition("Programmed", ConditionTrue, "Programmed", "", generation, now)]
    ensures FullReport([], LISTENER_MANDATORY, [], generation, now) ==
      [Condition("Accepted", ConditionTrue, "Accepted", "", generation, now), Condition("Conflicted", ConditionFalse, "NoConflicts", "", generation, now),
       Condition("ResolvedRefs", ConditionTrue, "ResolvedRefs", "", generation, now), Condition("Programmed", ConditionTrue, "Programmed", "", generation, now)]
    ensures FullReport([], PARENT_MANDATORY, [], generation, now) ==
      [Condition("Accepted", ConditionTrue, "Accepted", "", generation, now), Condition("ResolvedRefs", ConditionTrue, "ResolvedRefs", "", generation, now)]
  {
    hide FullReport;
    HealthyStatus(GATEWAY_MANDATORY, generation, now);
    HealthyStatus(LISTENER_MANDATORY, generation, now);
    HealthyStatus(PARENT_MANDATORY, generation, now);
  }

  // ---- repeated types ----

  /** A type reported twice that the resource already carries. */
  predicate RepeatedAndStored(report: seq<Condition>, stored: seq<Condition>) {
    exists i, j :: 0 <= i < j < |report| && report[i].kind == report[j].kind && HasKind(stored, report[j].kind)
  }

  lemma {:induction false} SetKinds(cs: seq<Condition>, c: Condition, now: nat)
    ensures var r := SetStatusCondition(cs, c, now);
      && |r| == (if HasKind(cs, c.kind) then |cs| else |cs| + 1)
      && (forall i :: 0 <= i < |cs| ==> r[i].kind == cs[i].kind)
      && (!HasKind(cs, c.kind) ==> r[|cs|].kind == c.kind)
  {
    if cs != [] {
      SetKinds(cs[1..], c, now);
      assert forall i :: 0 < i < |cs| ==> cs[i] == cs[1..][i - 1];
      assert cs[0].kind != c.kind ==> (HasKind(cs, c.kind) <==> HasKind(cs[1..], c.kind)) by {
        if HasKind(cs[1..], c.kind) {
          var k :| 0 <= k < |cs[1..]| && cs[1..][k].kind == c.kind;
          assert cs[k + 1].kind == c.kind;
        }
      }
    }
  }

  /** One round of the loop, on the types alone. */
  lemma BuildStep(report: seq<Condition>, stored: seq<Condition>, generation: int, now: nat)
    requires report != []
    ensures var n := |report| - 1;
      var kind, before, r := report[n].kind, BuildConditions(report[..n], stored, generation, now), BuildConditions(report, stored, generation, now);
      && |r| == (if HasKind(stored, kind) || !HasKind(before, kind) then |before| + 1 else |before|)
      && (forall i :: 0 <= i < |before| ==> r[i].kind == before[i].kind)
      && (|r| > |before| ==> r[|before|].kind == kind)
  {
    var n := |report| - 1;
    var c, before := report[n].(observedGeneration := generation), BuildConditions(report[..n], stored, generation, now);
    FindIsFirst(stored, c.kind);
    SetKinds(before, c, now);
    match FindStatusCondition(stored, c.kind)
    case None =>
    case Some(o) =>
      assert (before + [o])[|before|].kind == c.kind;
      SetKinds(before + [o], c, now);
      assert forall i :: 0 <= i < |before| ==> (before + [o])[i] == before[i];
  }

  lemma {:induction false} BuildHasKind(report: seq<Condition>, stored: seq<Condition>, generation: int, now: nat, kind: string)
    ensures HasKind(BuildConditions(report, stored, generation, now), kind) <==> HasKind(report, kind)
  {
    if report != [] {
      var n := |report| - 1;
      var before, r := BuildConditions(report[..n], stored, generation, now), BuildConditions(report, stored, generation, now);
      BuildHasKind(report[..n], stored, generation, now, kind);
      BuildHasKind(report[..n], stored, generation, now, report[n].kind);
      BuildStep(report, stored, generation, now);
      if HasKind(before, kind) {
        var i :| 0 <= i < |before| && before[i].kind == kind;
        assert r[i].kind == kind;
        var j :| 0 <= j < n && report[..n][j].kind == kind;
        assert report[j].kind == kind;
      } else if HasKind(report, kind) {
        assert r[|before|].kind == kind;
      }
    }
  }

  /** A built status lists no type twice exactly when no type is both repeated in the report and already stored. */
  lemma {:induction false} BuiltTypesAreDistinctIff(report: seq<Condition>, stored: seq<Condition>, generation: int, now: nat)
    ensures DistinctKinds(BuildConditions(report, stored, generation, now)) <==> !RepeatedAndStored(report, stored)
  {
    if report != [] {
      var n := |report| - 1;
      var kind := report[n].kind;
      var before, r := BuildConditions(report[..n], stored, generation, now), BuildConditions(report, stored, generation, now);
      BuiltTypesAreDistinctIff(report[..n], stored, generation, now);
      BuildHasKind(report[..n], stored, generation, now, kind);
      BuildStep(report, stored, generation, now);
      SplitRepeated(report, stored);
      assert DistinctKinds(r) <==> DistinctKinds(before) && (HasKind(stored, kind) ==> !HasKind(before, kind)) by {
        if HasKind(stored, kind) && HasKind(before, kind) {
          var k :| 0 <= k < |before| && before[k].kind == kind;
          assert r[k].kind == r[|before|].kind;
        }
        if DistinctKinds(r) {
          assert forall i, j :: 0 <= i < j < |before| ==> r[i].kind != r[j].kind;
        }
      }
    }
  }

  lemma SplitRepeated(report: seq<Condition>, stored: seq<Condition>)
    requires report != []
    ensures var n := |report| - 1;
      RepeatedAndStored(report, stored) <==>
      RepeatedAndStored(report[..n], stored) || (HasKind(stored, report[n].kind) && HasKind(report[..n], report[n].kind))
  {
    var n := |report| - 1;
    var kind := report[n].kind;
    if RepeatedAndStored(report[..n], stored) {
      var i, j :| 0 <= i < j < n && report[..n][i].kind == report[..n][j].kind && HasKind(stored, report[..n][j].kind);
      assert report[i].kind == report[j].kind && HasKind(stored, report[j].kind);
    }
    if HasKind(stored, kind) && HasKind(report[..n], kind) {
      var i :| 0 <= i < n && report[..n][i].kind == kind;
      assert report[i].kind == report[n].kind;
    }
    if RepeatedAndStored(report, stored) {
      var i, j :| 0 <= i < j < |report| && report[i].kind == report[j].kind && HasKind(stored, report[j].kind);
      assert report[..n][i].kind == report[i].kind;
      assert j < n ==> report[..n][j].kind == report[j].kind;
    }
  }

  // ---- the loop ----

  /** The loop shared by listeners, gateways and parents: copies the stored condition first, so that `SetStatusCondition`
      sees its time. */
  method BuildFinalConditions(report: seq<Condition>, stored: seq<Condition>, generation: int, now: nat) returns (final: seq<Condition>)
    ensures final == BuildConditions(report, stored, generation, now)
  {
    final := [];
    for i := 0 to |report|
      invariant final == BuildConditions(report[..i], stored, generation, now)
    {
      var c := report[i].(observedGeneration := generation);
      var prior := FindStatusCondition(stored, c.kind);
      if prior.Some? {
        final := final + [prior.value];
      }
      final := SetStatusCondition(final, c, now);
      assert report[..i + 1][..i] == report[..i];
    }
    assert report[..|report|] == report;
  }
}
