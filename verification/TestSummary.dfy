/** The heap structure behind the test summary (ci/github-actions/go-test-summary/summary/tree.go and
    go_test_summary.go). */
module TestSummary {
  import opened TestTrie
  import opened Sequences

  class Node {
    const data: string
    const ev: Event
    var children: seq<Node>
    /** The nodes of this subtree, and the tree it represents. */
    ghost var repr: set<Node>
    ghost var model: Tree

    ghost predicate Valid()
      reads this, repr
      decreases repr
    {
      && this in repr
      && (forall i :: 0 <= i < |children| ==> children[i] in repr && children[i].repr < repr && this !in children[i].repr && children[i].Valid())
      && (forall i, j :: 0 <= i < j < |children| ==> children[i].repr !! children[j].repr)
      && model.data == data && model.ev == ev && |model.children| == |children|
      && forall i :: 0 <= i < |children| ==> model.children[i] == children[i].model
    }

    constructor (data: string, ev: Event)
      ensures Valid() && children == [] && repr == {this} && model == Tree(data, ev, [])
    {
      this.data, this.ev, children := data, ev, [];
      repr, model := {this}, Tree(data, ev, []);
    }

    /** The last child named `part`, or their number. */
    method FindChild(part: string) returns (k: nat)
      requires Valid() && DistinctSiblings(model.children)
      ensures k == IndexOf(model.children, part)
    {
      k := |children|;
      for i := 0 to |children|
        invariant k == |children| || (k < i && children[k].data == part)
        invariant k == |children| ==> forall j :: 0 <= j < i ==> children[j].data != part
      {
        if children[i].data == part {
          k := i;
        }
      }
      IndexOfSpec(model.children, part);
      assert forall j :: 0 <= j < |children| ==> model.children[j].data == children[j].data;
    }

    method AddLeaf(part: string, ev: Event)
      requires Valid()
      modifies this
      ensures Valid() && old(repr) <= repr && fresh(repr - old(repr))
      ensures model == old(model).(children := old(model).children + [Tree(part, ev, [])])
      ensures |children| == |old(children)| + 1
    {
      var child := new Node(part, ev);
      children := children + [child];
      repr := repr + {child};
      model := model.(children := model.children + [child.model]);
    }

    /** Brings this node up to date with its child `k`, which has grown. */
    ghost method TakeOver(k: nat)
      requires k < |children| && this in repr
      requires forall i :: 0 <= i < |children| ==> children[i] in repr && this !in children[i].repr && children[i].Valid()
      requires forall i :: 0 <= i < |children| && i != k ==> children[i].repr < repr
      requires forall i, j :: 0 <= i < j < |children| ==> children[i].repr !! children[j].repr
      requires model.data == data && model.ev == ev && |model.children| == |children|
      requires forall i :: 0 <= i < |children| && i != k ==> model.children[i] == children[i].model
      modifies this
      ensures Valid() && repr == old(repr) + children[k].repr
      ensures model == old(model).(children := old(model).children[k := children[k].model])
    {
      repr := repr + children[k].repr;
      model := model.(children := model.children[k := children[k].model]);
    }
  }

  method InsertRec(n: Node, path: seq<string>, ev: Event)
    requires n.Valid() && DistinctSiblings(n.model.children)
    modifies n.repr
    ensures n.Valid() && old(n.repr) <= n.repr && fresh(n.repr - old(n.repr))
    ensures n.model == old(n.model).(children := InsertBelow(old(n.model).children, path, ev))
    decreases |path|, 1
  {
    if path == [] {
      return;
    }
    var k := n.FindChild(path[0]);
    if k == |n.children| {
      n.AddLeaf(path[0], ev);
    }
    InsertAtChild(n, k, path[1..], ev);
  }

  /** Goes down into child `k`; the siblings keep their trees. */
  method InsertAtChild(n: Node, k: nat, path: seq<string>, ev: Event)
    requires n.Valid() && k < |n.children| && DistinctSiblings(n.children[k].model.children)
    modifies n.repr
    ensures n.Valid() && old(n.repr) <= n.repr && fresh(n.repr - old(n.repr))
    ensures var child := old(n.model).children[k];
      n.model == old(n.model).(children := old(n.model).children[k := child.(children := InsertBelow(child.children, path, ev))])
    decreases |path|, 2
  {
    hide InsertBelow, DistinctSiblings;
    var child := n.children[k];
    assert forall i :: 0 <= i < |n.children| && i != k ==> n.children[i].repr !! child.repr;
    InsertRec(child, path, ev);
    assert forall i :: 0 <= i < |n.children| && i != k ==>
      n.children[i].repr == old(n.children[i].repr) && n.children[i].Valid() && n.children[i].repr !! child.repr;
    n.TakeOver(k);
  }

  // ---- several roots ----

  class Multitree {
    /** The roots of the trees. */
    var trees: seq<Node>
    ghost var repr: set<Node>
    ghost var model: seq<Tree>

    ghost predicate Valid()
      reads this, repr
    {
      && |model| == |trees|
      && (forall i :: 0 <= i < |trees| ==> trees[i] in repr && trees[i].repr <= repr && trees[i].Valid() && model[i] == trees[i].model)
      && (forall i, j :: 0 <= i < j < |trees| ==> trees[i].repr !! trees[j].repr)
    }

    constructor ()
      ensures Valid() && repr == {} && model == []
    {
      trees, repr, model := [], {}, [];
    }

    /** The first tree whose root is named `part`, or their number. */
    method FindTree(part: string) returns (k: nat)
      requires Valid()
      ensures k == IndexOf(model, part)
    {
      k := 0;
      while k < |trees| && trees[k].data != part
        invariant k <= |trees|
        invariant forall i :: 0 <= i < k ==> trees[i].data != part
      {
        k := k + 1;
      }
      assert forall i :: 0 <= i < |trees| ==> model[i].data == trees[i].data;
      IndexOfSpec(model, part);
    }

    method NewSubtreeFromString(part: string, ev: Event)
      requires Valid()
      modifies this
      ensures Valid() && old(repr) <= repr && fresh(repr - old(repr))
      ensures model == old(model) + [Tree(part, ev, [])]
    {
      var root := new Node(part, ev);
      trees, repr, model := trees + [root], repr + {root}, model + [root.model];
    }

    method PushString(s: string, ev: Event)
      requires Valid() && DistinctSiblings(model)
      modifies this, repr
      ensures Valid() && old(repr) <= repr && fresh(repr - old(repr))
      ensures model == InsertBelow(old(model), Split(s), ev) && DistinctSiblings(model)
    {
      var parts := Split(s);
      var k := FindTree(parts[0]);
      InsertKeepsDistinct(model, parts, ev);
      if k == |trees| {
        NewSubtreeFromString(parts[0], ev);
      }
      InsertAtTree(k, parts[1..], ev);
    }

    method InsertAtTree(k: nat, path: seq<string>, ev: Event)
      requires Valid() && k < |trees| && DistinctSiblings(model[k].children)
      modifies this, repr
      ensures Valid() && old(repr) <= repr && fresh(repr - old(repr))
      ensures var root := old(model)[k];
        model == old(model)[k := root.(children := InsertBelow(root.children, path, ev))]
    {
      hide InsertBelow, DistinctSiblings;
      var root := trees[k];
      assert forall i :: 0 <= i < |trees| && i != k ==> trees[i].repr !! root.repr;
      InsertRec(root, path, ev);
      assert forall i :: 0 <= i < |trees| && i != k ==>
        trees[i].repr == old(trees[i].repr) && trees[i].Valid() && trees[i].repr !! root.repr;
      repr := repr + root.repr;
      model := model[k := root.model];
    }

    method LeafNodes() returns (result: seq<Node>)
      requires Valid()
      ensures |result| == |Leaves(model)| && forall i :: 0 <= i < |result| ==> result[i].ev == Leaves(model)[i]
    {
      result := [];
      for i := 0 to |trees|
        invariant |result| == |Leaves(model[..i])| && forall k :: 0 <= k < |result| ==> result[k].ev == Leaves(model[..i])[k]
      {
        var more := LeafNodesRec(trees[i]);
        LeavesSnoc(model, i);
        result := result + more;
      }
      assert model[..|model|] == model;
    }
  }

  method LeafNodesRec(n: Node) returns (result: seq<Node>)
    requires n.Valid()
    ensures |result| == |OwnLeaves(n.model)| && forall i :: 0 <= i < |result| ==> result[i].ev == OwnLeaves(n.model)[i]
    decreases n.repr
  {
    if |n.children| == 0 {
      return [n];
    }
    hide Leaves;
    result := [];
    LeavesOfNothing();
    for i := 0 to |n.children|
      invariant |result| == |Leaves(n.model.children[..i])|
      invariant forall k :: 0 <= k < |result| ==> result[k].ev == Leaves(n.model.children[..i])[k]
    {
      var more := LeafNodesRec(n.children[i]);
      LeavesSnoc(n.model.children, i);
      result := result + more;
    }
    assert n.model.children[..|n.children|] == n.model.children;
  }

  lemma LeavesOfNothing()
    ensures Leaves([]) == []
  {
  }

  lemma {:induction false} LeavesSnoc(ts: seq<Tree>, i: nat)
    requires i < |ts|
    ensures Leaves(ts[..i + 1]) == Leaves(ts[..i]) + OwnLeaves(ts[i])
  {
    hide Leaves, OwnLeaves;
    LeavesCons(ts[..i + 1]);
    if i == 0 {
      LeavesOfNothing();
      assert ts[..i] == [] && ts[..i + 1][1..] == [];
    } else {
      LeavesSnoc(ts[1..], i - 1);
      LeavesCons(ts[..i]);
      assert ts[..i + 1][1..] == ts[1..][..i] && ts[..i][1..] == ts[1..][..i - 1];
    }
  }

  // ---- selection ----

  method SelectLeafNodes(events: seq<Event>) returns (result: seq<Event>)
    ensures SelectsLeaves(events, result)
  {
    hide Leaves, Split, InsertBelow, DistinctSiblings, SelectsLeaves;
    var t := new Multitree();
    PushAllIsDistinct([]);
    for i := 0 to |events|
      invariant t.Valid() && fresh(t) && fresh(t.repr)
      invariant t.model == PushAll(events[..i]) && DistinctSiblings(t.model)
    {
      assert events[..i + 1][..i] == events[..i];
      t.PushString(events[i].test, events[i]);
    }
    assert events[..|events|] == events;
    var leaves := t.LeafNodes();
    result := [];
    for i := 0 to |leaves|
      invariant result == Leaves(t.model)[..i]
    {
      result := result + [leaves[i].ev];
    }
    assert result == Leaves(PushAll(events));
    LeavesSelect(events);
  }

  /** `selectResultEvents`: the verdicts of named tests, in order. */
  predicate IsResult(ev: Event) {
    ev.test != "" && ev.action in ["pass", "fail", "skip"]
  }

  function Results(events: seq<Event>): seq<Event> {
    if events == [] then [] else Results(events[..|events| - 1]) + if IsResult(events[|events| - 1]) then [events[|events| - 1]] else []
  }

  /** A verdict: an event of a named test that says it passed, failed or was skipped. */
  lemma IsResultIff(ev: Event)
    ensures IsResult(ev) <==> ev.test != "" && (ev.action == "pass" || ev.action == "fail" || ev.action == "skip")
  {
  }

  lemma {:induction false} ResultsAre(events: seq<Event>)
    ensures Results(events) == Filter((ev: Event) => IsResult(ev), events)
  {
    if events != [] {
      ResultsAre(events[..|events| - 1]);
    }
  }

  method SelectResultEvents(allEvents: seq<Event>) returns (resultEvents: seq<Event>)
    ensures resultEvents == Results(allEvents)
  {
    resultEvents := [];
    for i := 0 to |allEvents|
      invariant resultEvents == Results(allEvents[..i])
    {
      assert allEvents[..i + 1][..i] == allEvents[..i];
      if IsResult(allEvents[i]) {
        resultEvents := resultEvents + [allEvents[i]];
      }
    }
    assert allEvents[..|allEvents|] == allEvents;
  }
}
