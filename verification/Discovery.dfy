/** The live set of function-discovery updaters (projects/discovery/pkg/fds/updater.go, eventloop.go). */
module Discovery {
  import opened Sequences

  datatype Ref = Ref(namespace: string, name: string)

  datatype Upstream = Upstream(ref: Ref, spec: string)

  // ---- keys ----

  function UpstreamToClusterName(ref: Ref): string {
    if ref.namespace == "" then ref.name else ref.name + "_" + ref.namespace
  }

  function Key(u: Upstream): string {
    UpstreamToClusterName(u.ref)
  }

  function Keys(us: seq<Upstream>): set<string> {
    set u | u in us :: Key(u)
  }

  /** The name of `b` goes on with an underscore where that of `a` ends, and the rest reads as the namespace of `a`. */
  ghost predicate Overlaps(a: Ref, b: Ref) {
    a.namespace != "" && exists x :: OverlapsBy(a, b, x)
  }

  predicate OverlapsBy(a: Ref, b: Ref, x: string) {
    b.name == a.name + "_" + x && a.namespace == if b.namespace == "" then x else x + "_" + b.namespace
  }

  /** Two references share a cluster name exactly when they are equal or one overlaps the other. */
  lemma SharedClusterNameIff(a: Ref, b: Ref)
    ensures UpstreamToClusterName(a) == UpstreamToClusterName(b) <==> a == b || Overlaps(a, b) || Overlaps(b, a)
  {
    if Overlaps(a, b) {
      OverlapShares(a, b);
    }
    if Overlaps(b, a) {
      OverlapShares(b, a);
    }
    if UpstreamToClusterName(a) == UpstreamToClusterName(b) {
      if |a.name| <= |b.name| {
        SharedOverlaps(a, b);
      } else {
        SharedOverlaps(b, a);
      }
    }
  }

  lemma OverlapShares(a: Ref, b: Ref)
    requires Overlaps(a, b)
    ensures UpstreamToClusterName(a) == UpstreamToClusterName(b)
  {
    var x :| OverlapsBy(a, b, x);
    assert (a.name + "_" + x) + "_" + b.namespace == a.name + "_" + (x + "_" + b.namespace);
  }

  lemma SharedOverlaps(a: Ref, b: Ref)
    requires UpstreamToClusterName(a) == UpstreamToClusterName(b) && |a.name| <= |b.name|
    ensures a == b || Overlaps(a, b)
  {
    var k, n := UpstreamToClusterName(b), |a.name|;
    NameIsPrefix(a);
    NameIsPrefix(b);
    if n == |b.name| {
      assert a.name == k[..n] == b.name;
    } else {
      assert a.namespace != "";
      var x := b.name[n + 1..];
      assert b.name == k[..|b.name|] && a.name == k[..n] && k[n] == '_' && a.namespace == k[n + 1..];
      assert b.name[..n] == a.name && b.name[n] == '_';
      assert b.name == b.name[..n] + [b.name[n]] + x;
      assert k[n + 1..] == x + k[|b.name|..];
      assert b.namespace != "" ==> k[|b.name|..] == "_" + b.namespace;
      assert OverlapsBy(a, b, x);
    }
  }

  lemma NameIsPrefix(a: Ref)
    ensures var k := UpstreamToClusterName(a);
      && |a.name| <= |k| && k[..|a.name|] == a.name
      && (a.namespace == "" <==> |k| == |a.name|)
      && (a.namespace != "" ==> k[|a.name|] == '_' && k[|a.name| + 1..] == a.namespace && k[|a.name|..] == "_" + a.namespace)
  {
  }

  /** So references with a namespace free of underscores, as Kubernetes has them, share a cluster name only with themselves,
      whatever their names. */
  lemma NamespacedNeverShare(a: Ref, b: Ref)
    requires a.namespace != "" && b.namespace != "" && '_' !in a.namespace && '_' !in b.namespace
    ensures UpstreamToClusterName(a) == UpstreamToClusterName(b) <==> a == b
  {
    SharedClusterNameIff(a, b);
    NoOverlap(a, b);
    NoOverlap(b, a);
  }

  lemma NoOverlap(a: Ref, b: Ref)
    requires b.namespace != "" && '_' !in a.namespace
    ensures !Overlaps(a, b)
  {
    forall x ensures !OverlapsBy(a, b, x) {
      assert '_' in x + "_" + b.namespace by {
        assert (x + "_" + b.namespace)[|x|] == '_';
      }
    }
  }

  /** An upstream without a namespace can share the key of one that has one. */
  lemma UnnamespacedCanShare()
    ensures Overlaps(Ref("b", "a"), Ref("", "a_b"))
  {
    assert "a_b" == "a" + "_" + "b";
    assert OverlapsBy(Ref("b", "a"), Ref("", "a_b"), "b");
  }

  // ---- snapshots ----

  predicate Found(us: seq<Upstream>, ref: Ref) {
    exists i :: 0 <= i < |us| && us[i].ref == ref
  }

  /** The elements of `one` whose reference `two` does not have, in order. */
  function Difference(one: seq<Upstream>, two: seq<Upstream>): seq<Upstream> {
    if one == [] then []
    else
      var n := |one| - 1;
      Difference(one[..n], two) + if Found(two, one[n].ref) then [] else [one[n]]
  }

  lemma {:induction false} DifferenceIs(one: seq<Upstream>, two: seq<Upstream>)
    ensures Difference(one, two) == Filter((u: Upstream) => !Found(two, u.ref), one)
  {
    hide Found;
    if one != [] {
      DifferenceIs(one[..|one| - 1], two);
    }
  }

  lemma {:induction false} DifferenceMembers(one: seq<Upstream>, two: seq<Upstream>, u: Upstream)
    ensures u in Difference(one, two) <==> u in one && !Found(two, u.ref)
  {
    if one != [] {
      var n := |one| - 1;
      DifferenceMembers(one[..n], two, u);
      assert one == one[..n] + [one[n]];
    }
  }

  method Diff(one: seq<Upstream>, two: seq<Upstream>) returns (newList: seq<Upstream>)
    ensures newList == Difference(one, two)
  {
    newList := [];
    for i := 0 to |one|
      invariant newList == Difference(one[..i], two)
    {
      assert one[..i + 1][..i] == one[..i];
      if !Found(two, one[i].ref) {
        newList := newList + [one[i]];
      }
    }
    assert one[..|one|] == one;
  }

  // ---- updaters ----

  /** One running discovery; `cancelled` is the state of its context. */
  class UpdaterUpdater {
    const upstream: Upstream
    var cancelled: bool

    constructor (upstream: Upstream)
      ensures this.upstream == upstream && !cancelled
    {
      this.upstream, cancelled := upstream, false;
    }

    method Cancel()
      modifies this
      ensures cancelled
    {
      cancelled := true;
    }
  }

  class Updater {
    var activeUpstreams: map<string, UpdaterUpdater>
    /** Every updater ever started. */
    ghost var spawned: set<UpdaterUpdater>

    /** The active map holds exactly the started updaters that are not cancelled, each under its own key. */
    ghost predicate Valid()
      reads this, spawned
    {
      && (forall key :: key in activeUpstreams ==>
            activeUpstreams[key] in spawned && !activeUpstreams[key].cancelled && Key(activeUpstreams[key].upstream) == key)
      && (forall x :: x in spawned && !x.cancelled ==>
            Key(x.upstream) in activeUpstreams && activeUpstreams[Key(x.upstream)] == x)
    }

    constructor ()
      ensures Valid() && activeUpstreams == map[] && spawned == {}
    {
      activeUpstreams, spawned := map[], {};
    }

    method UpstreamAdded(u: Upstream)
      requires Valid()
      modifies this
      ensures Valid()
      ensures Key(u) in old(activeUpstreams) ==> activeUpstreams == old(activeUpstreams) && spawned == old(spawned)
      ensures Key(u) !in old(activeUpstreams) ==>
        && activeUpstreams.Keys == old(activeUpstreams).Keys + {Key(u)}
        && fresh(activeUpstreams[Key(u)]) && activeUpstreams[Key(u)].upstream == u
        && activeUpstreams == old(activeUpstreams)[Key(u) := activeUpstreams[Key(u)]]
        && spawned == old(spawned) + {activeUpstreams[Key(u)]}
    {
      var key := Key(u);
      if key in activeUpstreams {
        return;
      }
      var updater := new UpdaterUpdater(u);
      activeUpstreams := activeUpstreams[key := updater];
      spawned := spawned + {updater};
    }

    method UpstreamRemoved(u: Upstream)
      requires Valid()
      modifies this, spawned
      ensures Valid() && spawned == old(spawned)
      ensures activeUpstreams == old(activeUpstreams) - {Key(u)}
      ensures Key(u) in old(activeUpstreams) ==> old(activeUpstreams)[Key(u)].cancelled
      ensures forall x :: x in spawned && old(x.cancelled) ==> x.cancelled
    {
      var key := Key(u);
      if key in activeUpstreams {
        activeUpstreams[key].Cancel();
        activeUpstreams := activeUpstreams - {key};
      }
    }

    method UpstreamUpdated(u: Upstream)
      requires Valid()
      modifies this, spawned
      ensures Valid() && old(spawned) <= spawned && fresh(spawned - old(spawned))
      ensures Key(u) in activeUpstreams && fresh(activeUpstreams[Key(u)]) && activeUpstreams[Key(u)].upstream == u
      ensures activeUpstreams == old(activeUpstreams)[Key(u) := activeUpstreams[Key(u)]]
      ensures forall x :: x in old(spawned) && old(x.cancelled) ==> x.cancelled
    {
      UpstreamRemoved(u);
      UpstreamAdded(u);
    }
  }

  class FunctionDiscovery {
    const updater: Updater
    var prevUpstreams: seq<Upstream>

    /** The object invariant: the active keys are those of the latest snapshot, and its upstreams are being discovered. */
    ghost predicate Valid()
      reads this, updater, updater.spawned
    {
      && updater.Valid() && updater.activeUpstreams.Keys == Keys(prevUpstreams)
      && forall key :: key in updater.activeUpstreams ==> updater.activeUpstreams[key].upstream in prevUpstreams
    }

    constructor ()
      ensures Valid() && fresh(updater) && prevUpstreams == [] && updater.spawned == {}
    {
      updater := new Updater();
      prevUpstreams := [];
    }

    /** After every update, whatever came before it: the active keys are the snapshot's, each updater works for an upstream
        of this snapshot, every updater not in the map is cancelled, and none of the earlier ones survives. */
    method Update(upstreams: seq<Upstream>)
      requires Valid()
      modifies this, updater, updater.spawned
      ensures Valid() && prevUpstreams == upstreams
      ensures old(updater.spawned) <= updater.spawned && fresh(updater.spawned - old(updater.spawned))
      ensures forall x :: x in old(updater.spawned) ==> x.cancelled
    {
      hide Key, Keys, Difference;
      var before := prevUpstreams;
      SnapshotCovered(before, upstreams);
      prevUpstreams := upstreams;
      var removed := Diff(before, upstreams);
      var added := Diff(upstreams, before);
      var potentiallyUpdated := Diff(upstreams, added);
      Apply(removed, added, potentiallyUpdated, upstreams);
    }

    /** The three loops, in their order. */
    method Apply(removed: seq<Upstream>, added: seq<Upstream>, updated: seq<Upstream>, upstreams: seq<Upstream>)
      requires updater.Valid() && updater.activeUpstreams.Keys - Keys(removed) <= Keys(updated)
      requires Keys(added) + Keys(updated) == Keys(upstreams)
      requires forall u :: u in added || u in updated ==> u in upstreams
      modifies updater, updater.spawned
      ensures updater.Valid() && updater.activeUpstreams.Keys == Keys(upstreams)
      ensures old(updater.spawned) <= updater.spawned && fresh(updater.spawned - old(updater.spawned))
      ensures forall key :: key in updater.activeUpstreams ==> updater.activeUpstreams[key].upstream in upstreams
      ensures forall x :: x in old(updater.spawned) ==> x.cancelled
    {
      hide Key, Keys;
      ghost var stale := updater.activeUpstreams.Keys - Keys(removed);
      RemoveAll(removed);
      AddAll(added, upstreams, stale);
      UpdateAll(updated);
      assert forall key :: key in updater.activeUpstreams ==>
        updater.activeUpstreams[key] !in old(updater.spawned) && updater.activeUpstreams[key].upstream in upstreams;
    }

    method RemoveAll(removed: seq<Upstream>)
      requires updater.Valid()
      modifies updater, updater.spawned
      ensures updater.Valid() && updater.spawned == old(updater.spawned)
      ensures updater.activeUpstreams.Keys == old(updater.activeUpstreams).Keys - Keys(removed)
    {
      for i := 0 to |removed|
        invariant updater.Valid() && updater.spawned == old(updater.spawned)
        invariant updater.activeUpstreams.Keys == old(updater.activeUpstreams).Keys - Keys(removed[..i])
      {
        KeysSnoc(removed, i);
        updater.UpstreamRemoved(removed[i]);
      }
      assert removed[..|removed|] == removed;
    }

    /** `stale` are the keys still held by updaters of the snapshot before. */
    method AddAll(added: seq<Upstream>, upstreams: seq<Upstream>, ghost stale: set<string>)
      requires updater.Valid() && updater.activeUpstreams.Keys == stale
      requires forall u :: u in added ==> u in upstreams
      modifies updater
      ensures updater.Valid() && old(updater.spawned) <= updater.spawned && fresh(updater.spawned - old(updater.spawned))
      ensures updater.activeUpstreams.Keys == stale + Keys(added)
      ensures forall key :: key in updater.activeUpstreams && key !in stale ==>
        updater.activeUpstreams[key] !in old(updater.spawned) && updater.activeUpstreams[key].upstream in upstreams
    {
      for i := 0 to |added|
        invariant updater.Valid() && old(updater.spawned) <= updater.spawned && fresh(updater.spawned - old(updater.spawned))
        invariant updater.activeUpstreams.Keys == stale + Keys(added[..i])
        invariant forall key :: key in updater.activeUpstreams && key !in stale ==>
          updater.activeUpstreams[key] !in old(updater.spawned) && updater.activeUpstreams[key].upstream in upstreams
      {
        KeysSnoc(added, i);
        updater.UpstreamAdded(added[i]);
      }
      assert added[..|added|] == added;
    }

    method UpdateAll(updated: seq<Upstream>)
      requires updater.Valid()
      modifies updater, updater.spawned
      ensures updater.Valid() && old(updater.spawned) <= updater.spawned && fresh(updater.spawned - old(updater.spawned))
      ensures updater.activeUpstreams.Keys == old(updater.activeUpstreams).Keys + Keys(updated)
      ensures forall key :: key in updater.activeUpstreams && key !in Keys(updated) ==>
        key in old(updater.activeUpstreams) && updater.activeUpstreams[key] == old(updater.activeUpstreams)[key]
      ensures forall key :: key in Keys(updated) ==>
        updater.activeUpstreams[key] !in old(updater.spawned) && updater.activeUpstreams[key].upstream in updated
      ensures forall x :: x in old(updater.spawned) && old(x.cancelled) ==> x.cancelled
    {
      for i := 0 to |updated|
        invariant updater.Valid() && old(updater.spawned) <= updater.spawned && fresh(updater.spawned - old(updater.spawned))
        invariant updater.activeUpstreams.Keys == old(updater.activeUpstreams).Keys + Keys(updated[..i])
        invariant forall key :: key in updater.activeUpstreams && key !in Keys(updated[..i]) ==>
          key in old(updater.activeUpstreams) && updater.activeUpstreams[key] == old(updater.activeUpstreams)[key]
        invariant forall key :: key in Keys(updated[..i]) ==>
          updater.activeUpstreams[key] !in old(updater.spawned) && updater.activeUpstreams[key].upstream in updated
        invariant forall x :: x in old(updater.spawned) && old(x.cancelled) ==> x.cancelled
      {
        KeysSnoc(updated, i);
        updater.UpstreamUpdated(updated[i]);
      }
      assert updated[..|updated|] == updated;
    }
  }

  lemma KeysSnoc(us: seq<Upstream>, i: nat)
    requires i < |us|
    ensures Keys(us[..i + 1]) == Keys(us[..i]) + {Key(us[i])}
  {
    assert us[..i + 1] == us[..i] + [us[i]];
  }

  /** The three differences of an update cover the new snapshot, and the keys that survive a removal are all updated. */
  lemma SnapshotCovered(before: seq<Upstream>, upstreams: seq<Upstream>)
    ensures var removed, added := Difference(before, upstreams), Difference(upstreams, before);
      var updated := Difference(upstreams, added);
      && Keys(before) - Keys(removed) <= Keys(updated)
      && Keys(added) + Keys(updated) == Keys(upstreams)
      && (forall u :: u in added || u in updated ==> u in upstreams)
  {
    var removed, added := Difference(before, upstreams), Difference(upstreams, before);
    var updated := Difference(upstreams, added);
    forall u ensures u in removed <==> u in before && !Found(upstreams, u.ref) {
      DifferenceMembers(before, upstreams, u);
    }
    forall u ensures u in added <==> u in upstreams && !Found(before, u.ref) {
      DifferenceMembers(upstreams, before, u);
    }
    forall u ensures u in updated <==> u in upstreams && !Found(added, u.ref) {
      DifferenceMembers(upstreams, added, u);
    }
    forall key | key in Keys(before) - Keys(removed) ensures key in Keys(updated) {
      var u :| u in before && Key(u) == key;
      assert u !in removed;
      var i :| 0 <= i < |upstreams| && upstreams[i].ref == u.ref;
      var k :| 0 <= k < |before| && before[k] == u;
      assert !Found(added, u.ref);
      assert upstreams[i] in updated && Key(upstreams[i]) == key;
    }
    forall u | u in upstreams ensures Key(u) in Keys(added) + Keys(updated) {
      if Found(added, u.ref) {
        var j :| 0 <= j < |added| && added[j].ref == u.ref;
        assert added[j] in added && Key(added[j]) == Key(u);
      }
    }
  }

  /** `x` is running and works on `u`. */
  ghost predicate WorksOn(d: FunctionDiscovery, x: UpdaterUpdater, u: Upstream)
    reads d, d.updater, d.updater.spawned
  {
    x in d.updater.spawned && !x.cancelled && x.upstream == u
  }

  /** Exactly one running updater works on `u`. */
  ghost predicate OneUpdaterFor(d: FunctionDiscovery, u: Upstream)
    reads d, d.updater, d.updater.spawned
  {
    && (exists x :: x in d.updater.spawned && WorksOn(d, x, u))
    && forall x, y :: x in d.updater.spawned && y in d.updater.spawned && WorksOn(d, x, u) && WorksOn(d, y, u) ==> x == y
  }

  /** After every update: one running updater per upstream exactly when no two upstreams of the snapshot share a key. */
  lemma OneUpdaterPerUpstreamIff(d: FunctionDiscovery)
    requires d.Valid()
    ensures (forall u :: u in d.prevUpstreams ==> OneUpdaterFor(d, u)) <==>
            (forall u, v :: u in d.prevUpstreams && v in d.prevUpstreams && Key(u) == Key(v) ==> u == v)
  {
    if forall u :: u in d.prevUpstreams ==> OneUpdaterFor(d, u) {
      forall u, v | u in d.prevUpstreams && v in d.prevUpstreams && Key(u) == Key(v) ensures u == v {
        assert OneUpdaterFor(d, u) && OneUpdaterFor(d, v);
        var x :| x in d.updater.spawned && WorksOn(d, x, u);
        var y :| y in d.updater.spawned && WorksOn(d, y, v);
        assert d.updater.activeUpstreams[Key(u)] == x && d.updater.activeUpstreams[Key(v)] == y;
      }
    }
    if forall u, v :: u in d.prevUpstreams && v in d.prevUpstreams && Key(u) == Key(v) ==> u == v {
      forall u | u in d.prevUpstreams ensures OneUpdaterFor(d, u) {
        assert Key(u) in Keys(d.prevUpstreams);
        assert WorksOn(d, d.updater.activeUpstreams[Key(u)], u);
      }
    }
  }
}
