/** When the second select of Enqueue drops the new item (projects/gateway2/proxy_syncer/queue.go), told by the order of
    the callers' and the loop's steps alone. */
module QueueDrops {
  import opened SyncLoop

  /** The second select finds the queue full and drops the new item. */
  ghost predicate DropsNew(s: State, a: Action) {
    a.OfferStep? && a.c in s.calls && s.calls[a.c].queue in s.full
  }

  // ---- runs, last step first ----

  lemma {:induction false} RunSnoc(s: State, steps: seq<Action>, a: Action)
    ensures IsRun(s, steps + [a]) <==> IsRun(s, steps) && Enabled(Final(s, steps), a)
    ensures IsRun(s, steps + [a]) ==> Final(s, steps + [a]) == Step(Final(s, steps), a)
    decreases |steps|
  {
    if steps == [] {
      assert [a][1..] == [] && steps + [a] == [a];
    } else {
      assert (steps + [a])[1..] == steps[1..] + [a];
      if Enabled(s, steps[0]) {
        RunSnoc(Step(s, steps[0]), steps[1..], a);
      }
    }
  }

  /** The state before step k, in which step k can be taken. */
  lemma {:induction false} RunPrefix(steps: seq<Action>, k: nat)
    requires IsRun(INITIAL, steps) && k < |steps|
    ensures IsRun(INITIAL, steps[..k]) && Enabled(Final(INITIAL, steps[..k]), steps[k])
    decreases |steps|
  {
    var n := |steps| - 1;
    assert steps == steps[..n] + [steps[n]];
    RunSnoc(INITIAL, steps[..n], steps[n]);
    if k < n {
      RunPrefix(steps[..n], k);
      assert steps[..n][..k] == steps[..k];
    }
  }

  // ---- what the steps say about the callers ----

  /** Who began on which queue. */
  ghost predicate BeginFacts(s: State, steps: seq<Action>) {
    && s.began.Keys == s.target.Keys && s.calls.Keys <= s.target.Keys
    && (forall c <- s.calls :: s.calls[c].queue == s.target[c])
    && (forall c, q :: Begin(c, q) in steps <==> c in s.target && s.target[c] == q)
  }

  /** How far the callers are. */
  ghost predicate ProgressFacts(s: State, steps: seq<Action>) {
    && (forall c :: DrainStep(c) in steps ==> c in s.target)
    && (forall c :: OfferStep(c) in steps <==> c in s.target && c !in s.calls)
    && (forall c <- s.calls :: s.calls[c].drained <==> DrainStep(c) in steps)
  }

  ghost predicate CallFacts(s: State, steps: seq<Action>) {
    BeginFacts(s, steps) && ProgressFacts(s, steps)
  }

  lemma StepBeginFacts(s: State, steps: seq<Action>, a: Action)
    requires BeginFacts(s, steps) && Enabled(s, a)
    ensures BeginFacts(Step(s, a), steps + [a])
  {
    var t := Step(s, a);
    forall c, q ensures Begin(c, q) in steps + [a] <==> c in t.target && t.target[c] == q {
      assert Begin(c, q) in steps + [a] <==> Begin(c, q) in steps || a == Begin(c, q);
    }
  }

  lemma StepProgressFacts(s: State, steps: seq<Action>, a: Action)
    requires BeginFacts(s, steps) && ProgressFacts(s, steps) && Enabled(s, a)
    ensures ProgressFacts(Step(s, a), steps + [a])
  {
    var t := Step(s, a);
    forall c
      ensures DrainStep(c) in steps + [a] <==> DrainStep(c) in steps || a == DrainStep(c)
      ensures OfferStep(c) in steps + [a] <==> OfferStep(c) in steps || a == OfferStep(c)
    {
    }
  }

  lemma StepCallFacts(s: State, steps: seq<Action>, a: Action)
    requires CallFacts(s, steps) && Enabled(s, a)
    ensures CallFacts(Step(s, a), steps + [a])
  {
    hide BeginFacts, ProgressFacts, Step;
    StepBeginFacts(s, steps, a);
    StepProgressFacts(s, steps, a);
  }

  // ---- what they say about the queues ----

  predicate Empties(target: map<CallId, QueueId>, a: Action, q: QueueId) {
    a == Take(q) || (a.DrainStep? && a.c in target && target[a.c] == q)
  }

  /** Step j put an item on the queue that is still there. */
  ghost predicate Fills(target: map<CallId, QueueId>, steps: seq<Action>, q: QueueId, j: int) {
    && 0 <= j < |steps| && steps[j].OfferStep? && steps[j].c in target && target[steps[j].c] == q
    && forall l :: j < l < |steps| ==> !Empties(target, steps[l], q)
  }

  ghost predicate Filled(target: map<CallId, QueueId>, steps: seq<Action>, q: QueueId) {
    exists j :: Fills(target, steps, q, j)
  }

  lemma FillsSnoc(target: map<CallId, QueueId>, steps: seq<Action>, a: Action, q: QueueId, j: int)
    ensures Fills(target, steps + [a], q, j) <==>
      || (Fills(target, steps, q, j) && !Empties(target, a, q))
      || (j == |steps| && a.OfferStep? && a.c in target && target[a.c] == q)
  {
    var now := steps + [a];
    assert forall l :: 0 <= l < |steps| ==> now[l] == steps[l];
    if 0 <= j < |steps| {
      assert now[|steps|] == a;
    }
  }

  lemma FilledSnoc(target: map<CallId, QueueId>, steps: seq<Action>, a: Action, q: QueueId)
    ensures Filled(target, steps + [a], q) <==>
      (Filled(target, steps, q) && !Empties(target, a, q)) || (a.OfferStep? && a.c in target && target[a.c] == q)
  {
    hide Fills, Empties;
    forall j ensures Fills(target, steps + [a], q, j) <==>
      (Fills(target, steps, q, j) && !Empties(target, a, q)) || (j == |steps| && a.OfferStep? && a.c in target && target[a.c] == q)
    {
      FillsSnoc(target, steps, a, q, j);
    }
    if a.OfferStep? && a.c in target && target[a.c] == q {
      assert Fills(target, steps + [a], q, |steps|);
    }
    if Filled(target, steps, q) && !Empties(target, a, q) {
      var j :| Fills(target, steps, q, j);
      assert Fills(target, steps + [a], q, j);
    }
  }

  /** A call that begins changes nothing about the steps before. */
  lemma FilledIgnoresNewCall(target: map<CallId, QueueId>, steps: seq<Action>, c: CallId, p: QueueId, q: QueueId)
    requires c !in target && DrainStep(c) !in steps && OfferStep(c) !in steps
    ensures Filled(target[c := p], steps, q) <==> Filled(target, steps, q)
  {
    forall j ensures Fills(target[c := p], steps, q, j) <==> Fills(target, steps, q, j) {
      assert forall l :: 0 <= l < |steps| ==> (Empties(target[c := p], steps[l], q) <==> Empties(target, steps[l], q));
    }
    if Filled(target, steps, q) {
      var j :| Fills(target, steps, q, j);
      assert Fills(target[c := p], steps, q, j);
    }
    if Filled(target[c := p], steps, q) {
      var j :| Fills(target[c := p], steps, q, j);
      assert Fills(target, steps, q, j);
    }
  }

  ghost predicate QueueFacts(s: State, steps: seq<Action>) {
    forall q :: q in s.full <==> Filled(s.target, steps, q)
  }

  lemma StepQueueFacts(s: State, steps: seq<Action>, a: Action)
    requires CallFacts(s, steps) && QueueFacts(s, steps) && Enabled(s, a)
    ensures QueueFacts(Step(s, a), steps + [a])
  {
    hide Filled;
    var t := Step(s, a);
    forall q ensures q in t.full <==> Filled(t.target, steps + [a], q) {
      FilledSnoc(t.target, steps, a, q);
      if a.Begin? {
        assert DrainStep(a.c) !in steps && OfferStep(a.c) !in steps;
        FilledIgnoresNewCall(s.target, steps, a.c, a.q, q);
      }
    }
  }

  lemma {:induction false} RunFacts(steps: seq<Action>)
    requires IsRun(INITIAL, steps)
    ensures CallFacts(Final(INITIAL, steps), steps) && QueueFacts(Final(INITIAL, steps), steps)
    decreases |steps|
  {
    if steps != [] {
      hide CallFacts, QueueFacts;
      var n := |steps| - 1;
      assert steps == steps[..n] + [steps[n]];
      RunSnoc(INITIAL, steps[..n], steps[n]);
      RunFacts(steps[..n]);
      StepCallFacts(Final(INITIAL, steps[..n]), steps[..n], steps[n]);
      StepQueueFacts(Final(INITIAL, steps[..n]), steps[..n], steps[n]);
    }
  }

  // ---- exactly when the new item is dropped ----

  /** Step j is another caller's second select on the queue of `c`, after the first select i of `c`, and nobody has taken
      or drained that queue since. */
  ghost predicate RefilledSince(steps: seq<Action>, c: CallId, q: QueueId, i: int, j: int) {
    && 0 <= i < j < |steps| && Begin(c, q) in steps && steps[i] == DrainStep(c)
    && steps[j].OfferStep? && steps[j].c != c && Begin(steps[j].c, q) in steps
    && forall l :: j < l < |steps| ==> steps[l] != Take(q) && !(steps[l].DrainStep? && Begin(steps[l].c, q) in steps)
  }

  lemma DropsNewIff(steps: seq<Action>, c: CallId)
    requires IsRun(INITIAL, steps) && Enabled(Final(INITIAL, steps), OfferStep(c))
    ensures DropsNew(Final(INITIAL, steps), OfferStep(c)) <==> exists q, i, j :: RefilledSince(steps, c, q, i, j)
  {
    hide IsRun, Final;
    var s := Final(INITIAL, steps);
    RunFacts(steps);
    if DropsNew(s, OfferStep(c)) {
      FullIsRefilled(s, steps, c);
    }
    if q, i, j :| RefilledSince(steps, c, q, i, j) {
      RefilledIsFull(s, steps, c, q, i, j);
    }
  }

  lemma FullIsRefilled(s: State, steps: seq<Action>, c: CallId)
    requires CallFacts(s, steps) && QueueFacts(s, steps) && Enabled(s, OfferStep(c)) && DropsNew(s, OfferStep(c))
    ensures exists q, i, j :: RefilledSince(steps, c, q, i, j)
  {
    var q := s.calls[c].queue;
    var j :| Fills(s.target, steps, q, j);
    assert DrainStep(c) in steps && OfferStep(c) !in steps && Begin(c, q) in steps;
    var i :| 0 <= i < |steps| && steps[i] == DrainStep(c);
    assert Empties(s.target, steps[i], q);
    assert steps[j] in steps && Begin(steps[j].c, q) in steps;
    forall l | j < l < |steps| ensures steps[l] != Take(q) && !(steps[l].DrainStep? && Begin(steps[l].c, q) in steps) {
      assert !Empties(s.target, steps[l], q);
    }
    assert RefilledSince(steps, c, q, i, j);
  }

  lemma RefilledIsFull(s: State, steps: seq<Action>, c: CallId, q: QueueId, i: int, j: int)
    requires CallFacts(s, steps) && QueueFacts(s, steps) && Enabled(s, OfferStep(c)) && RefilledSince(steps, c, q, i, j)
    ensures DropsNew(s, OfferStep(c))
  {
    forall l | j < l < |steps| ensures !Empties(s.target, steps[l], q) {
      assert steps[l] != Take(q) && !(steps[l].DrainStep? && Begin(steps[l].c, q) in steps);
    }
    assert Fills(s.target, steps, q, j);
  }

  // ---- one caller at a time ----

  /** A call begins on a queue only after every earlier one there has finished. */
  ghost predicate Exclusive(steps: seq<Action>) {
    forall a, b, c, d, q :: 0 <= a < b < |steps| && steps[a] == Begin(c, q) && steps[b] == Begin(d, q) ==> FinishedBetween(steps, c, a, b)
  }

  ghost predicate FinishedBetween(steps: seq<Action>, c: CallId, a: int, b: int)
    requires 0 <= a < b < |steps|
  {
    exists o :: a < o < b && steps[o] == OfferStep(c)
  }

  /** The call of a step began before it, on the queue it is known for. */
  lemma BeganBefore(steps: seq<Action>, k: nat, q: QueueId) returns (b: int)
    requires IsRun(INITIAL, steps) && k < |steps| && (steps[k].DrainStep? || steps[k].OfferStep?) && Begin(steps[k].c, q) in steps
    ensures 0 <= b < k && steps[b] == Begin(steps[k].c, q)
    ensures steps[k].OfferStep? ==> forall o :: 0 <= o < k ==> steps[o] != steps[k]
  {
    hide IsRun, Final;
    RunPrefix(steps, k);
    RunFacts(steps[..k]);
    RunFacts(steps);
    var s, c := Final(INITIAL, steps[..k]), steps[k].c;
    var p := s.target[c];
    assert Begin(c, p) in steps[..k];
    b :| 0 <= b < k && steps[..k][b] == Begin(c, p);
    assert steps[b] in steps;
    forall o | 0 <= o < k && steps[k].OfferStep? ensures steps[o] != steps[k] {
      assert OfferStep(c) !in steps[..k];
      assert steps[..k][o] == steps[o];
    }
  }

  /** With one caller per queue at a time nothing is ever dropped. */
  lemma ExclusiveNeverDrops(steps: seq<Action>, c: CallId)
    requires IsRun(INITIAL, steps) && Enabled(Final(INITIAL, steps), OfferStep(c)) && Exclusive(steps)
    ensures !DropsNew(Final(INITIAL, steps), OfferStep(c))
  {
    hide IsRun, Final;
    DropsNewIff(steps, c);
    forall q, i, j ensures !RefilledSince(steps, c, q, i, j) {
      if RefilledSince(steps, c, q, i, j) {
        NotRefilled(steps, c, q, i, j);
      }
    }
  }

  lemma NotRefilled(steps: seq<Action>, c: CallId, q: QueueId, i: int, j: int)
    requires IsRun(INITIAL, steps) && Enabled(Final(INITIAL, steps), OfferStep(c)) && RefilledSince(steps, c, q, i, j)
    ensures !Exclusive(steps)
  {
    hide IsRun, Final;
    RunFacts(steps);
    assert OfferStep(c) !in steps;
    var a := BeganBefore(steps, i, q);
    var b := BeganBefore(steps, j, q);
    if a < b {
      assert !FinishedBetween(steps, c, a, b);
    } else {
      assert !FinishedBetween(steps, steps[j].c, b, a);
    }
  }

  /** Two overlapping callers are enough to reach the branch that is commented as impossible. */
  lemma OverlappingCallersDrop()
    ensures exists steps, c :: IsRun(INITIAL, steps) && Enabled(Final(INITIAL, steps), OfferStep(c)) && DropsNew(Final(INITIAL, steps), OfferStep(c))
  {
    hide IsRun, Final;
    var s1 := Step(INITIAL, Begin(0, GenericEvent));
    var s2 := Step(s1, Begin(1, GenericEvent));
    var s3 := Step(s2, DrainStep(0));
    var s4 := Step(s3, DrainStep(1));
    EmptyRun();
    RunSnoc(INITIAL, [], Begin(0, GenericEvent));
    var steps1 := [] + [Begin(0, GenericEvent)];
    RunSnoc(INITIAL, steps1, Begin(1, GenericEvent));
    var steps2 := steps1 + [Begin(1, GenericEvent)];
    RunSnoc(INITIAL, steps2, DrainStep(0));
    var steps3 := steps2 + [DrainStep(0)];
    RunSnoc(INITIAL, steps3, DrainStep(1));
    var steps4 := steps3 + [DrainStep(1)];
    RunSnoc(INITIAL, steps4, OfferStep(0));
    var steps5 := steps4 + [OfferStep(0)];
    assert DropsNew(Step(s4, OfferStep(0)), OfferStep(1));
    assert IsRun(INITIAL, steps5) && Enabled(Final(INITIAL, steps5), OfferStep(1));
  }

  lemma EmptyRun()
    ensures IsRun(INITIAL, []) && Final(INITIAL, []) == INITIAL
  {
  }
}
