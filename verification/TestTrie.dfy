/** Test names as paths in a forest (ci/github-actions/go-test-summary/summary/tree.go): what the heap structure of
    TestSummary holds, and which events its leaves carry. */
module TestTrie {
  import opened Common

  datatype Event = Event(test: string, action: string, output: string)

  /** `ev` is the event that created the node. */
  datatype Tree = Tree(data: string, ev: Event, children: seq<Tree>)

  // ---- names and paths ----

  /** `strings.Split(s, "/")`. */
  function Split(s: string): (parts: seq<string>)
    ensures |parts| > 0
  {
    if s == "" then [""]
    else
      var rest := Split(s[1..]);
      if s[0] == '/' then [""] + rest else [[s[0]] + rest[0]] + rest[1..]
  }

  lemma {:induction false} SplitFirst(s: string)
    ensures s == "" ==> Split(s) == [""]
    ensures s != "" && s[0] == '/' ==> Split(s)[0] == "" && |Split(s)| > 1 && Split(s)[1..] == Split(s[1..])
    ensures s != "" && s[0] != '/' ==>
      |Split(s)| == |Split(s[1..])| && Split(s)[0] == [s[0]] + Split(s[1..])[0] && Split(s)[1..] == Split(s[1..])[1..]
  {
  }

  predicate ProperPrefix(p: seq<string>, q: seq<string>) {
    p <= q && |p| < |q|
  }

  /** Path prefixes are name prefixes up to a slash, and paths determine names. */
  lemma {:induction false} SplitPrefix(a: string, b: string)
    ensures ProperPrefix(Split(a), Split(b)) <==> a + "/" <= b
    ensures Split(a) == Split(b) <==> a == b
  {
    hide Split;
    SplitFirst(a);
    SplitFirst(b);
    var p, q := Split(a), Split(b);
    if a == "" {
      if b != "" {
        assert b[0] == '/' <==> "" + "/" <= b;
      }
    } else if b == "" {
    } else {
      SplitPrefix(a[1..], b[1..]);
      assert a == [a[0]] + a[1..] && b == [b[0]] + b[1..];
      assert (a + "/")[1..] == a[1..] + "/";
      assert a + "/" <= b <==> a[0] == b[0] && a[1..] + "/" <= b[1..];
      TailsDecide(p, q);
      TailsDecide(Split(a[1..]), Split(b[1..]));
      if a[0] != '/' && b[0] != '/' {
        var r, t := Split(a[1..])[0], Split(b[1..])[0];
        assert p[0] == q[0] <==> a[0] == b[0] && r == t by {
          assert p[0][0] == a[0] && q[0][0] == b[0] && p[0][1..] == r && q[0][1..] == t;
        }
      }
    }
  }

  lemma TailsDecide(p: seq<string>, q: seq<string>)
    requires p != [] && q != []
    ensures p == q <==> p[0] == q[0] && p[1..] == q[1..]
    ensures ProperPrefix(p, q) <==> p[0] == q[0] && ProperPrefix(p[1..], q[1..])
  {
    assert p == [p[0]] + p[1..] && q == [q[0]] + q[1..];
    if p[0] == q[0] && p[1..] <= q[1..] {
      assert forall i :: 0 < i < |p| ==> p[i] == p[1..][i - 1] == q[1..][i - 1] == q[i];
    }
    if p <= q {
      assert forall i :: 0 <= i < |p[1..]| ==> p[1..][i] == q[1..][i];
    }
  }

  // ---- insertion ----

  /** The index of the sibling named `part`, or their number. */
  function IndexOf(ts: seq<Tree>, part: string): (k: nat)
    ensures k <= |ts|
  {
    if ts == [] then 0 else if ts[0].data == part then 0 else 1 + IndexOf(ts[1..], part)
  }

  function InsertBelow(ts: seq<Tree>, path: seq<string>, ev: Event): seq<Tree>
    decreases |path|
  {
    if path == [] then ts
    else
      var k := IndexOf(ts, path[0]);
      var child := if k < |ts| then ts[k] else Tree(path[0], ev, []);
      var grown := child.(children := InsertBelow(child.children, path[1..], ev));
      if k < |ts| then ts[k := grown] else ts + [grown]
  }

  function PushAll(events: seq<Event>): seq<Tree> {
    if events == [] then []
    else
      var n := |events| - 1;
      InsertBelow(PushAll(events[..n]), Split(events[n].test), events[n])
  }

  // ---- reading ----

  function Lookup(ts: seq<Tree>, path: seq<string>): Option<Event>
    decreases |path|
  {
    if path == [] then None
    else
      var k := IndexOf(ts, path[0]);
      if k == |ts| then None
      else if |path| == 1 then Some(ts[k].ev)
      else Lookup(ts[k].children, path[1..])
  }

  predicate DistinctSiblings(ts: seq<Tree>) {
    && (forall i, j :: 0 <= i < j < |ts| ==> ts[i].data != ts[j].data)
    && forall i :: 0 <= i < |ts| ==> DistinctSiblings(ts[i].children)
  }

  function Leaves(ts: seq<Tree>): seq<Event> {
    if ts == [] then []
    else (if ts[0].children == [] then [ts[0].ev] else Leaves(ts[0].children)) + Leaves(ts[1..])
  }

  /** The paths of the leaves, in the order of `Leaves`. */
  ghost function LeafPaths(ts: seq<Tree>): seq<seq<string>> {
    if ts == [] then []
    else (if ts[0].children == [] then [[ts[0].data]] else Under(ts[0].data, LeafPaths(ts[0].children))) + LeafPaths(ts[1..])
  }

  ghost function Under(part: string, paths: seq<seq<string>>): seq<seq<string>> {
    seq(|paths|, i requires 0 <= i < |paths| => [part] + paths[i])
  }

  // ---- what a lookup finds ----

  lemma {:induction false} IndexOfSpec(ts: seq<Tree>, part: string)
    ensures var k := IndexOf(ts, part);
      (k < |ts| ==> ts[k].data == part) && forall i :: 0 <= i < k ==> ts[i].data != part
  {
    if ts != [] && ts[0].data != part {
      IndexOfSpec(ts[1..], part);
      var k := IndexOf(ts[1..], part);
      assert forall i :: 0 < i < |ts| ==> ts[i] == ts[1..][i - 1];
    }
  }

  /** Inserting touches one sibling, the one named by the first part. */
  lemma InsertIndex(ts: seq<Tree>, path: seq<string>, ev: Event, part: string)
    requires path != []
    ensures var k, r := IndexOf(ts, path[0]), InsertBelow(ts, path, ev);
      && |r| == (if k < |ts| then |ts| else |ts| + 1)
      && (part == path[0] ==> IndexOf(r, part) == k)
      && (part != path[0] && IndexOf(ts, part) < |ts| ==> IndexOf(r, part) == IndexOf(ts, part) && r[IndexOf(r, part)] == ts[IndexOf(r, part)])
      && (part != path[0] && IndexOf(ts, part) == |ts| ==> IndexOf(r, part) == |r|)
  {
    var k, r := IndexOf(ts, path[0]), InsertBelow(ts, path, ev);
    IndexOfSpec(ts, path[0]);
    IndexOfSpec(ts, part);
    IndexOfSpec(r, part);
    assert forall i :: 0 <= i < |ts| ==> r[i].data == ts[i].data;
    assert r[k].data == path[0];
  }

  /** A node keeps its first event; the new event lands on the prefixes of its path that were not there. */
  lemma {:induction false} LookupAfterInsert(ts: seq<Tree>, path: seq<string>, ev: Event, p: seq<string>)
    ensures Lookup(InsertBelow(ts, path, ev), p) ==
      if Lookup(ts, p).Some? then Lookup(ts, p) else if p != [] && p <= path then Some(ev) else None
    decreases |path|
  {
    hide InsertBelow, IndexOf;
    if path == [] {
      InsertNothing(ts, ev);
    } else if p != [] {
      var k, r := IndexOf(ts, path[0]), InsertBelow(ts, path, ev);
      InsertIndex(ts, path, ev, p[0]);
      if p[0] == path[0] {
        var child := if k < |ts| then ts[k] else Tree(path[0], ev, []);
        InsertAt(ts, path, ev);
        LookupAfterInsert(child.children, path[1..], ev, p[1..]);
        PrefixTails(p, path);
        if k == |ts| {
          LookupNowhere(p[1..]);
        }
      }
    }
  }

  lemma InsertNothing(ts: seq<Tree>, ev: Event)
    ensures InsertBelow(ts, [], ev) == ts
  {
  }

  lemma InsertAt(ts: seq<Tree>, path: seq<string>, ev: Event)
    requires path != []
    ensures var k := IndexOf(ts, path[0]);
      var child := if k < |ts| then ts[k] else Tree(path[0], ev, []);
      |InsertBelow(ts, path, ev)| > k && InsertBelow(ts, path, ev)[k] == child.(children := InsertBelow(child.children, path[1..], ev))
  {
  }

  lemma LookupNowhere(p: seq<string>)
    ensures Lookup([], p) == None
  {
  }

  lemma PrefixTails(p: seq<string>, q: seq<string>)
    requires p != [] && q != [] && p[0] == q[0]
    ensures p <= q <==> p[1..] <= q[1..]
  {
    assert p == [p[0]] + p[1..] && q == [q[0]] + q[1..];
  }

  /** The first event whose path goes through `p`. */
  function FirstThrough(events: seq<Event>, p: seq<string>): Option<Event> {
    if events == [] || p == [] then None
    else
      var n := |events| - 1;
      var before := FirstThrough(events[..n], p);
      if before.Some? then before else if p <= Split(events[n].test) then Some(events[n]) else None
  }

  lemma {:induction false} NodesAreFirstEvents(events: seq<Event>, p: seq<string>)
    ensures Lookup(PushAll(events), p) == FirstThrough(events, p)
  {
    if events != [] {
      var n := |events| - 1;
      NodesAreFirstEvents(events[..n], p);
      LookupAfterInsert(PushAll(events[..n]), Split(events[n].test), events[n], p);
    }
  }

  lemma {:induction false} FirstThroughSpec(events: seq<Event>, p: seq<string>)
    requires p != []
    ensures var f := FirstThrough(events, p);
      && (f.None? <==> forall i :: 0 <= i < |events| ==> !(p <= Split(events[i].test)))
      && (f.Some? ==> exists i :: 0 <= i < |events| && f.value == events[i] && p <= Split(events[i].test)
                                  && forall j :: 0 <= j < i ==> !(p <= Split(events[j].test)))
  {
    if events != [] {
      var n := |events| - 1;
      FirstThroughSpec(events[..n], p);
      assert forall i :: 0 <= i < n ==> events[..n][i] == events[i];
    }
  }

  // ---- siblings stay distinct ----

  lemma {:induction false} InsertKeepsDistinct(ts: seq<Tree>, path: seq<string>, ev: Event)
    requires DistinctSiblings(ts)
    ensures DistinctSiblings(InsertBelow(ts, path, ev))
    decreases |path|
  {
    if path != [] {
      var k, r := IndexOf(ts, path[0]), InsertBelow(ts, path, ev);
      var child := if k < |ts| then ts[k] else Tree(path[0], ev, []);
      IndexOfSpec(ts, path[0]);
      assert DistinctSiblings(child.children);
      InsertKeepsDistinct(child.children, path[1..], ev);
      assert forall i :: 0 <= i < |ts| ==> r[i].data == ts[i].data;
      assert forall i :: 0 <= i < |r| && i != k ==> r[i] == ts[i];
    }
  }

  lemma {:induction false} PushAllIsDistinct(events: seq<Event>)
    ensures DistinctSiblings(PushAll(events))
  {
    if events != [] {
      var n := |events| - 1;
      PushAllIsDistinct(events[..n]);
      InsertKeepsDistinct(PushAll(events[..n]), Split(events[n].test), events[n]);
    }
  }

  // ---- leaves ----

  ghost predicate IsLeafPath(ts: seq<Tree>, p: seq<string>) {
    Lookup(ts, p).Some? && forall x :: Lookup(ts, p + [x]).None?
  }

  lemma LookupHead(ts: seq<Tree>, p: seq<string>)
    requires ts != [] && p != []
    ensures Lookup(ts, p) ==
      if p[0] != ts[0].data then Lookup(ts[1..], p) else if |p| == 1 then Some(ts[0].ev) else Lookup(ts[0].children, p[1..])
  {
    if p[0] != ts[0].data {
      assert IndexOf(ts, p[0]) == 1 + IndexOf(ts[1..], p[0]);
      assert IndexOf(ts, p[0]) < |ts| ==> ts[IndexOf(ts, p[0])] == ts[1..][IndexOf(ts[1..], p[0])];
    }
  }

  lemma IsLeafHead(ts: seq<Tree>, p: seq<string>)
    requires ts != [] && p != []
    ensures IsLeafPath(ts, p) <==>
      if p[0] != ts[0].data then IsLeafPath(ts[1..], p) else if |p| == 1 then ts[0].children == [] else IsLeafPath(ts[0].children, p[1..])
  {
    hide Lookup;
    var children := ts[0].children;
    LookupHead(ts, p);
    forall x ensures Lookup(ts, p + [x]) ==
      if p[0] != ts[0].data then Lookup(ts[1..], p + [x]) else Lookup(children, p[1..] + [x])
    {
      LookupHead(ts, p + [x]);
      assert (p + [x])[1..] == p[1..] + [x];
    }
    if p[0] == ts[0].data && |p| == 1 {
      assert forall x :: p[1..] + [x] == [x];
      if children == [] {
        forall x ensures Lookup(children, [x]).None? {
          LookupNowhere([x]);
        }
      } else {
        LookupHead(children, [children[0].data]);
        assert Lookup(ts, p + [children[0].data]).Some?;
      }
    }
  }

  lemma UnderMembers(part: string, paths: seq<seq<string>>, p: seq<string>)
    ensures p in Under(part, paths) <==> p != [] && p[0] == part && p[1..] in paths
  {
    if p != [] && p[0] == part && p[1..] in paths {
      var i :| 0 <= i < |paths| && paths[i] == p[1..];
      assert Under(part, paths)[i] == p;
    }
    if p in Under(part, paths) {
      var i :| 0 <= i < |paths| && Under(part, paths)[i] == p;
      assert p[1..] == paths[i];
    }
  }

  ghost function OwnPaths(t: Tree): seq<seq<string>> {
    if t.children == [] then [[t.data]] else Under(t.data, LeafPaths(t.children))
  }

  function OwnLeaves(t: Tree): seq<Event> {
    if t.children == [] then [t.ev] else Leaves(t.children)
  }

  lemma LeavesCons(ts: seq<Tree>)
    requires ts != []
    ensures LeafPaths(ts) == OwnPaths(ts[0]) + LeafPaths(ts[1..])
    ensures Leaves(ts) == OwnLeaves(ts[0]) + Leaves(ts[1..])
  {
  }

  lemma OwnMembers(t: Tree, p: seq<string>)
    ensures p in OwnPaths(t) <==> p != [] && p[0] == t.data && if t.children == [] then |p| == 1 else p[1..] in LeafPaths(t.children)
  {
    UnderMembers(t.data, LeafPaths(t.children), p);
    assert |p| == 1 ==> p == [p[0]];
  }

  /** A path through the first tree does not go through the others. */
  lemma NotBelow(ts: seq<Tree>, p: seq<string>)
    requires DistinctSiblings(ts) && ts != []
    ensures p != [] && p[0] == ts[0].data ==> Lookup(ts[1..], p).None?
  {
    if p != [] {
      IndexOfSpec(ts[1..], p[0]);
      assert forall i :: 0 <= i < |ts[1..]| ==> ts[1..][i] == ts[i + 1];
    }
  }

  lemma LookupRoot(ts: seq<Tree>)
    ensures Lookup(ts, []) == None
  {
  }

  lemma DistinctParts(ts: seq<Tree>)
    requires DistinctSiblings(ts) && ts != []
    ensures DistinctSiblings(ts[0].children) && DistinctSiblings(ts[1..])
  {
  }

  /** The leaf paths are the paths nothing extends. */
  lemma {:induction false} LeafPathsAreLeaves(ts: seq<Tree>, p: seq<string>)
    requires DistinctSiblings(ts)
    ensures p in LeafPaths(ts) <==> IsLeafPath(ts, p)
    decreases ts
  {
    hide Lookup, DistinctSiblings, OwnPaths, Under;
    if ts != [] {
      hide LeafPaths;
      DistinctParts(ts);
      LeavesCons(ts);
      OwnMembers(ts[0], p);
      LeafPathsAreLeaves(ts[1..], p);
      LookupRoot(ts);
      LookupRoot(ts[1..]);
      if p != [] {
        NotBelow(ts, p);
        IsLeafHead(ts, p);
        LookupRoot(ts[0].children);
        LookupNowhere(p[1..]);
        LeafPathsAreLeaves(ts[0].children, p[1..]);
        assert |p| == 1 ==> p[1..] == [];
      }
    } else {
      LookupNowhere(p);
    }
  }

  /** Distinct nonempty paths, each with the event of its node. */
  ghost predicate Carries(ts: seq<Tree>, paths: seq<seq<string>>, evs: seq<Event>) {
    && |paths| == |evs|
    && (forall i :: 0 <= i < |paths| ==> paths[i] != [] && Lookup(ts, paths[i]) == Some(evs[i]))
    && (forall i, j :: 0 <= i < j < |paths| ==> paths[i] != paths[j])
  }

  lemma OwnCarries(ts: seq<Tree>)
    requires ts != [] && Carries(ts[0].children, LeafPaths(ts[0].children), Leaves(ts[0].children))
    ensures Carries(ts, OwnPaths(ts[0]), OwnLeaves(ts[0]))
    ensures forall i :: 0 <= i < |OwnPaths(ts[0])| ==> OwnPaths(ts[0])[i][0] == ts[0].data
  {
    hide Lookup, LeafPaths, Leaves;
    var t, own := ts[0], OwnPaths(ts[0]);
    forall i | 0 <= i < |own| ensures own[i] != [] && own[i][0] == t.data && Lookup(ts, own[i]) == Some(OwnLeaves(t)[i]) {
      LookupHead(ts, own[i]);
      assert t.children != [] ==> own[i][1..] == LeafPaths(t.children)[i];
    }
    forall i, j | 0 <= i < j < |own| ensures own[i] != own[j] {
      assert own[i][1..] == LeafPaths(t.children)[i] && own[j][1..] == LeafPaths(t.children)[j];
    }
  }

  lemma TailCarries(ts: seq<Tree>, paths: seq<seq<string>>, evs: seq<Event>)
    requires DistinctSiblings(ts) && ts != [] && Carries(ts[1..], paths, evs)
    ensures Carries(ts, paths, evs) && forall i :: 0 <= i < |paths| ==> paths[i][0] != ts[0].data
  {
    hide Lookup, DistinctSiblings;
    forall i | 0 <= i < |paths| ensures paths[i][0] != ts[0].data && Lookup(ts, paths[i]) == Some(evs[i]) {
      LookupHead(ts, paths[i]);
      NotBelow(ts, paths[i]);
    }
  }

  lemma ConcatCarries(ts: seq<Tree>, p1: seq<seq<string>>, e1: seq<Event>, p2: seq<seq<string>>, e2: seq<Event>, part: string)
    requires Carries(ts, p1, e1) && Carries(ts, p2, e2)
    requires forall i :: 0 <= i < |p1| ==> p1[i][0] == part
    requires forall i :: 0 <= i < |p2| ==> p2[i][0] != part
    ensures Carries(ts, p1 + p2, e1 + e2)
  {
    hide Lookup;
  }

  /** The leaves carry, path by path, the event of their node. */
  lemma {:induction false} LeavesAreCarried(ts: seq<Tree>)
    requires DistinctSiblings(ts)
    ensures Carries(ts, LeafPaths(ts), Leaves(ts))
    decreases ts
  {
    hide Lookup, DistinctSiblings, OwnPaths, OwnLeaves;
    if ts != [] {
      hide LeafPaths, Leaves, Carries;
      DistinctParts(ts);
      LeavesCons(ts);
      LeavesAreCarried(ts[1..]);
      LeavesAreCarried(ts[0].children);
      OwnCarries(ts);
      TailCarries(ts, LeafPaths(ts[1..]), Leaves(ts[1..]));
      ConcatCarries(ts, OwnPaths(ts[0]), OwnLeaves(ts[0]), LeafPaths(ts[1..]), Leaves(ts[1..]), ts[0].data);
    }
  }

  // ---- the selected events ----

  /** No test of `events` runs below `name`. */
  predicate IsLeafName(events: seq<Event>, name: string) {
    forall j :: 0 <= j < |events| ==> !(name + "/" <= events[j].test)
  }

  /** `e` is the first event of its name. */
  predicate IsFirstNamed(events: seq<Event>, e: Event) {
    exists i :: 0 <= i < |events| && events[i] == e && forall j :: 0 <= j < i ==> events[j].test != e.test
  }

  /** The selection: exactly the names that are no proper path prefix of another event's name, each once, each with the
      first event of that name. */
  ghost predicate SelectsLeaves(events: seq<Event>, selected: seq<Event>) {
    && (forall k :: 0 <= k < |selected| ==> IsFirstNamed(events, selected[k]) && IsLeafName(events, selected[k].test))
    && (forall k, l :: 0 <= k < l < |selected| ==> selected[k].test != selected[l].test)
    && (forall i :: 0 <= i < |events| && IsLeafName(events, events[i].test) ==>
          exists k :: 0 <= k < |selected| && selected[k].test == events[i].test)
  }

  /** A path without extension among the events is the whole name of the event that made it. */
  lemma LeafPathIsAName(events: seq<Event>, p: seq<string>)
    requires p != [] && IsLeafPath(PushAll(events), p)
    ensures var e := Lookup(PushAll(events), p).value; IsFirstNamed(events, e) && p == Split(e.test) && IsLeafName(events, e.test)
  {
    hide Lookup, PushAll, Split, FirstThrough;
    NodesAreFirstEvents(events, p);
    FirstThroughSpec(events, p);
    var i :| 0 <= i < |events| && FirstThrough(events, p).value == events[i] && p <= Split(events[i].test)
             && forall j :: 0 <= j < i ==> !(p <= Split(events[j].test));
    forall j | 0 <= j < |events| ensures !ProperPrefix(p, Split(events[j].test)) {
      var q := Split(events[j].test);
      if ProperPrefix(p, q) {
        var longer := p + [q[|p|]];
        assert longer <= q;
        NodesAreFirstEvents(events, longer);
        FirstThroughSpec(events, longer);
      }
    }
    assert p == Split(events[i].test);
    forall j | 0 <= j < |events| ensures !(events[i].test + "/" <= events[j].test) {
      SplitPrefix(events[i].test, events[j].test);
    }
    assert IsFirstNamed(events, events[i]);
  }

  lemma LeafNameIsAPath(events: seq<Event>, i: nat)
    requires i < |events| && IsLeafName(events, events[i].test)
    ensures IsLeafPath(PushAll(events), Split(events[i].test))
  {
    hide Lookup, PushAll, Split, FirstThrough;
    var p := Split(events[i].test);
    NodesAreFirstEvents(events, p);
    FirstThroughSpec(events, p);
    forall x ensures Lookup(PushAll(events), p + [x]).None? {
      NodesAreFirstEvents(events, p + [x]);
      FirstThroughSpec(events, p + [x]);
      forall j | 0 <= j < |events| ensures !(p + [x] <= Split(events[j].test)) {
        SplitPrefix(events[i].test, events[j].test);
        assert p + [x] <= Split(events[j].test) ==> ProperPrefix(p, Split(events[j].test));
      }
    }
  }

  lemma LeavesSelect(events: seq<Event>)
    ensures SelectsLeaves(events, Leaves(PushAll(events)))
  {
    hide Lookup, PushAll, Split, Leaves, LeafPaths, DistinctSiblings, IsLeafPath, IsLeafName, IsFirstNamed;
    var ts := PushAll(events);
    var paths, evs := LeafPaths(ts), Leaves(ts);
    PushAllIsDistinct(events);
    LeavesAreCarried(ts);
    forall k | 0 <= k < |evs| ensures IsFirstNamed(events, evs[k]) && IsLeafName(events, evs[k].test) && paths[k] == Split(evs[k].test) {
      LeafPathsAreLeaves(ts, paths[k]);
      LeafPathIsAName(events, paths[k]);
    }
    forall k, l | 0 <= k < l < |evs| ensures evs[k].test != evs[l].test {
      assert paths[k] != paths[l] && paths[k] == Split(evs[k].test) && paths[l] == Split(evs[l].test);
    }
    forall i | 0 <= i < |events| && IsLeafName(events, events[i].test)
      ensures exists k :: 0 <= k < |evs| && evs[k].test == events[i].test
    {
      LeafNameIsAPath(events, i);
      LeafPathsAreLeaves(ts, Split(events[i].test));
      var k :| 0 <= k < |paths| && paths[k] == Split(events[i].test);
      SplitPrefix(evs[k].test, events[i].test);
    }
  }
}
