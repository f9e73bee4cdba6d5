/** The token semaphore of function discovery (projects/discovery/pkg/fds/updater.go: getConcurrencyChan, detectSingle,
    detectType) as a state machine over any number of detections. */
module DetectionTokens {

  /** Where a `detectSingle` goroutine is. From `Running` up to and including `Returning` it holds a token. */
  datatype Phase = Waiting | Running | Sending | Returning | Finished

  datatype Worker = Worker(group: nat, phase: Phase)

  /** One `detectType` call: whether its context is done, and whether it still receives from the result channel. */
  datatype Group = Group(cancelled: bool, listening: bool)

  /** `unfilled` tokens are still to be sent by the filler, `buffered` are in the channel. */
  datatype State = State(unfilled: nat, buffered: nat, workers: seq<Worker>, groups: seq<Group>)

  /** With a maximum of 0 there is no channel. */
  function Init(max: nat): State {
    State(max, 0, [], [])
  }

  datatype Step =
    | Fill
    | Open(plugins: nat)
    | CancelGroup(group: nat)
    | Leave(group: nat)
    | Acquire(worker: nat)
    | GiveUp(worker: nat)
    | Detected(worker: nat)
    | Send(worker: nat)
    | GiveBack(worker: nat)

  predicate InPhase(s: State, i: nat, phase: Phase) {
    i < |s.workers| && s.workers[i].phase == phase
  }

  predicate WellFormed(s: State) {
    forall i :: 0 <= i < |s.workers| ==> s.workers[i].group < |s.groups|
  }

  /** All results are in: nobody of this group is before its send. */
  predicate AllSent(s: State, g: nat) {
    forall i :: 0 <= i < |s.workers| && s.workers[i].group == g ==> s.workers[i].phase.Returning? || s.workers[i].phase.Finished?
  }

  /** When a step can be taken. Channel sends wait for room, receives for an element. */
  predicate Enabled(max: nat, s: State, step: Step)
    requires WellFormed(s)
  {
    match step
    case Fill => s.unfilled > 0 && s.buffered < max
    case Open(_) => true
    case CancelGroup(g) => g < |s.groups|
    case Leave(g) => g < |s.groups| && s.groups[g].listening && (s.groups[g].cancelled || AllSent(s, g))
    case Acquire(i) => InPhase(s, i, Waiting) && (max > 0 ==> s.buffered > 0)
    case GiveUp(i) => InPhase(s, i, Waiting) && max > 0 && s.groups[s.workers[i].group].cancelled
    case Detected(i) => InPhase(s, i, Running)
    case Send(i) => InPhase(s, i, Sending) && s.groups[s.workers[i].group].listening
    case GiveBack(i) => InPhase(s, i, Returning) && (max > 0 ==> s.buffered < max)
  }

  function MoveTo(s: State, i: nat, phase: Phase): State
    requires i < |s.workers|
  {
    s.(workers := s.workers[i := s.workers[i].(phase := phase)])
  }

  function Next(max: nat, s: State, step: Step): State
    requires WellFormed(s) && Enabled(max, s, step)
  {
    match step
    case Fill => s.(unfilled := s.unfilled - 1, buffered := s.buffered + 1)
    case Open(plugins) =>
      s.(workers := s.workers + seq(plugins, i => Worker(|s.groups|, Waiting)), groups := s.groups + [Group(false, true)])
    case CancelGroup(g) => s.(groups := s.groups[g := s.groups[g].(cancelled := true)])
    case Leave(g) => s.(groups := s.groups[g := s.groups[g].(listening := false)])
    case Acquire(i) => MoveTo(s, i, Running).(buffered := if max > 0 then s.buffered - 1 else s.buffered)
    case GiveUp(i) => MoveTo(s, i, Finished)
    case Detected(i) => MoveTo(s, i, Sending)
    case Send(i) => MoveTo(s, i, Returning)
    case GiveBack(i) => MoveTo(s, i, Finished).(buffered := if max > 0 then s.buffered + 1 else s.buffered)
  }

  ghost predicate Steps(max: nat, s: State, t: State) {
    WellFormed(s) && exists step :: Enabled(max, s, step) && t == Next(max, s, step)
  }

  ghost predicate IsRun(max: nat, run: seq<State>) {
    |run| > 0 && forall k :: 0 <= k < |run| - 1 ==> Steps(max, run[k], run[k + 1])
  }

  // ---- conservation ----

  predicate Holds(w: Worker) {
    w.phase.Running? || w.phase.Sending? || w.phase.Returning?
  }

  function Held(ws: seq<Worker>): nat {
    if ws == [] then 0 else Held(ws[..|ws| - 1]) + if Holds(ws[|ws| - 1]) then 1 else 0
  }

  function CountIn(ws: seq<Worker>, phase: Phase): nat {
    if ws == [] then 0 else CountIn(ws[..|ws| - 1], phase) + if ws[|ws| - 1].phase == phase then 1 else 0
  }

  /** Tokens are conserved, and a group that stopped listening without being cancelled left nobody behind. */
  predicate Inv(max: nat, s: State) {
    && WellFormed(s)
    && (max > 0 ==> s.unfilled + s.buffered + Held(s.workers) == max)
    && (max == 0 ==> s.unfilled == 0 && s.buffered == 0)
    && forall g :: 0 <= g < |s.groups| && !s.groups[g].listening && !s.groups[g].cancelled ==> AllSent(s, g)
  }

  lemma {:induction false} HeldUpdate(ws: seq<Worker>, i: nat, w: Worker)
    requires i < |ws|
    ensures Held(ws[i := w]) == Held(ws) - (if Holds(ws[i]) then 1 else 0) + (if Holds(w) then 1 else 0)
  {
    var n := |ws| - 1;
    if i < n {
      HeldUpdate(ws[..n], i, w);
      assert ws[i := w][..n] == ws[..n][i := w];
    } else {
      assert ws[i := w][..n] == ws[..n];
    }
  }

  lemma {:induction false} HeldAppend(ws: seq<Worker>, more: seq<Worker>)
    requires forall i :: 0 <= i < |more| ==> !Holds(more[i])
    ensures Held(ws + more) == Held(ws)
  {
    if more == [] {
      assert ws + more == ws;
    } else {
      var n := |more| - 1;
      HeldAppend(ws, more[..n]);
      assert (ws + more)[..|ws + more| - 1] == ws + more[..n];
    }
  }

  lemma {:induction false} CountsSplitHeld(ws: seq<Worker>)
    ensures Held(ws) == CountIn(ws, Running) + CountIn(ws, Sending) + CountIn(ws, Returning)
  {
    if ws != [] {
      CountsSplitHeld(ws[..|ws| - 1]);
    }
  }

  lemma {:induction false} CountPositive(ws: seq<Worker>, i: nat)
    requires i < |ws|
    ensures CountIn(ws, ws[i].phase) > 0
  {
    if i < |ws| - 1 {
      CountPositive(ws[..|ws| - 1], i);
    }
  }

  lemma StepKeepsInv(max: nat, s: State, step: Step)
    requires Inv(max, s) && Enabled(max, s, step)
    ensures Inv(max, Next(max, s, step))
  {
    hide Held;
    match step
    case Fill =>
    case Open(plugins) =>
      HeldAppend(s.workers, seq(plugins, i => Worker(|s.groups|, Waiting)));
    case CancelGroup(_) =>
    case Leave(_) =>
    case Acquire(i) => HeldUpdate(s.workers, i, s.workers[i].(phase := Running));
    case GiveUp(i) => HeldUpdate(s.workers, i, s.workers[i].(phase := Finished));
    case Detected(i) => HeldUpdate(s.workers, i, s.workers[i].(phase := Sending));
    case Send(i) => HeldUpdate(s.workers, i, s.workers[i].(phase := Returning));
    case GiveBack(i) => HeldUpdate(s.workers, i, s.workers[i].(phase := Finished));
  }

  lemma StepsKeepInv(max: nat, s: State, t: State)
    requires Inv(max, s) && Steps(max, s, t)
    ensures Inv(max, t) && |s.workers| <= |t.workers|
    ensures forall i :: Doomed(s, i) ==> Doomed(t, i)
  {
    hide Inv;
    var step :| Enabled(max, s, step) && t == Next(max, s, step);
    StepKeepsInv(max, s, step);
    StepKeepsDoomed(max, s, step);
  }

  lemma StepKeepsDoomed(max: nat, s: State, step: Step)
    requires WellFormed(s) && Enabled(max, s, step)
    ensures var t := Next(max, s, step);
      WellFormed(t) && |s.workers| <= |t.workers| && forall i :: Doomed(s, i) ==> Doomed(t, i)
  {
    match step
    case Fill =>
    case Open(_) =>
    case CancelGroup(_) =>
    case Leave(_) =>
    case Acquire(_) =>
    case GiveUp(_) =>
    case Detected(_) =>
    case Send(_) =>
    case GiveBack(_) =>
  }

  /** Along a run the invariant holds, workers are only added, and a doomed one stays doomed. */
  lemma {:induction false} RunKeepsInv(max: nat, run: seq<State>, k: nat)
    requires IsRun(max, run) && Inv(max, run[0]) && k < |run|
    ensures Inv(max, run[k]) && |run[0].workers| <= |run[k].workers|
    ensures forall i :: Doomed(run[0], i) ==> Doomed(run[k], i)
  {
    hide Steps, Inv, Doomed;
    if k > 0 {
      RunKeepsInv(max, run, k - 1);
      assert Steps(max, run[k - 1], run[k - 1 + 1]);
      StepsKeepInv(max, run[k - 1], run[k]);
    }
  }

  /** In every state of every run: conservation, at most `max` detections at once, and neither the filler nor a give-back
      ever has to wait. */
  lemma TokensAreConserved(max: nat, run: seq<State>, k: nat)
    requires max > 0 && IsRun(max, run) && run[0] == Init(max) && k < |run|
    ensures var s := run[k];
      && WellFormed(s)
      && s.unfilled + s.buffered + Held(s.workers) == max
      && CountIn(s.workers, Running) <= max
      && (s.unfilled > 0 ==> Enabled(max, s, Fill))
      && (forall i :: InPhase(s, i, Returning) ==> Enabled(max, s, GiveBack(i)))
  {
    hide Steps;
    RunKeepsInv(max, run, k);
    var s := run[k];
    CountsSplitHeld(s.workers);
    forall i | InPhase(s, i, Returning) ensures Enabled(max, s, GiveBack(i)) {
      CountPositive(s.workers, i);
    }
  }

  /** A waiting detection is held up only by `max` others that are detecting or handing over a result. */
  lemma WaitingMeansSaturated(max: nat, run: seq<State>, k: nat, i: nat)
    requires max > 0 && IsRun(max, run) && run[0] == Init(max) && k < |run| && InPhase(run[k], i, Waiting)
    requires WellFormed(run[k]) && !Enabled(max, run[k], Acquire(i)) && !Enabled(max, run[k], Fill)
    requires forall j :: InPhase(run[k], j, Returning) ==> !Enabled(max, run[k], GiveBack(j))
    ensures CountIn(run[k].workers, Running) + CountIn(run[k].workers, Sending) == max
  {
    hide Steps;
    RunKeepsInv(max, run, k);
    var s := run[k];
    CountsSplitHeld(s.workers);
    forall j | 0 <= j < |s.workers| ensures s.workers[j].phase != Returning {
      assert !InPhase(s, j, Returning);
    }
    NoneIn(s.workers, Returning);
  }

  lemma {:induction false} NoneIn(ws: seq<Worker>, phase: Phase)
    requires forall i :: 0 <= i < |ws| ==> ws[i].phase != phase
    ensures CountIn(ws, phase) == 0
  {
    if ws != [] {
      NoneIn(ws[..|ws| - 1], phase);
    }
  }

  // ---- results nobody receives ----

  /** Detecting, or blocked on its send, while the receiver of its results has left. */
  predicate Doomed(s: State, i: nat) {
    && i < |s.workers| && (s.workers[i].phase.Running? || s.workers[i].phase.Sending?)
    && s.workers[i].group < |s.groups| && !s.groups[s.workers[i].group].listening
  }

  /** Only a cancelled detection can be doomed. */
  lemma DoomedOnlyIfCancelled(max: nat, run: seq<State>, k: nat, i: nat)
    requires IsRun(max, run) && run[0] == Init(max) && k < |run| && WellFormed(run[k]) && Doomed(run[k], i)
    ensures run[k].groups[run[k].workers[i].group].cancelled
  {
    hide Steps;
    RunKeepsInv(max, run, k);
  }

  /** `t` is a possible future of `s`. */
  ghost predicate Reaches(max: nat, s: State, t: State) {
    exists run :: IsRun(max, run) && run[0] == s && run[|run| - 1] == t
  }

  lemma ReachesSelf(max: nat, s: State)
    ensures Reaches(max, s, s)
  {
    assert IsRun(max, [s]);
  }

  lemma ReachesStep(max: nat, s: State, t: State, step: Step)
    requires Reaches(max, s, t) && WellFormed(t) && Enabled(max, t, step)
    ensures Reaches(max, s, Next(max, t, step))
  {
    hide Next, Enabled;
    var run :| IsRun(max, run) && run[0] == s && run[|run| - 1] == t;
    var longer := run + [Next(max, t, step)];
    forall k | 0 <= k < |longer| - 1 ensures Steps(max, longer[k], longer[k + 1]) {
      assert k < |run| - 1 ==> Steps(max, run[k], run[k + 1]);
    }
    assert IsRun(max, longer) && longer[0] == s;
  }

  lemma FutureKeepsInv(max: nat, s: State, t: State)
    requires Inv(max, s) && Reaches(max, s, t)
    ensures Inv(max, t) && |s.workers| <= |t.workers|
    ensures forall i :: Doomed(s, i) ==> Doomed(t, i)
  {
    hide Inv, Doomed, Steps;
    var run :| IsRun(max, run) && run[0] == s && run[|run| - 1] == t;
    RunKeepsInv(max, run, |run| - 1);
  }

  // ---- which tokens come back ----

  ghost predicate CanGiveBack(max: nat, s: State, i: nat) {
    exists t :: Reaches(max, s, t) && WellFormed(t) && InPhase(t, i, Returning) && Enabled(max, t, GiveBack(i))
  }

  lemma HolderCounts(ws: seq<Worker>, i: nat)
    requires i < |ws| && Holds(ws[i])
    ensures Held(ws) > 0
  {
    CountPositive(ws, i);
    CountsSplitHeld(ws);
  }

  /** A detection that is done sending gives its token back at once. */
  lemma ReturningGivesBack(max: nat, s: State, t: State, i: nat)
    requires Inv(max, s) && Reaches(max, s, t) && InPhase(t, i, Returning)
    ensures CanGiveBack(max, s, i)
  {
    hide Reaches, Held;
    FutureKeepsInv(max, s, t);
    HolderCounts(t.workers, i);
    assert Enabled(max, t, GiveBack(i));
  }

  lemma SendingGivesBack(max: nat, s: State, t: State, i: nat)
    requires Inv(max, s) && Reaches(max, s, t) && InPhase(t, i, Sending) && !Doomed(t, i)
    ensures CanGiveBack(max, s, i)
  {
    hide Reaches, CanGiveBack, Held;
    FutureKeepsInv(max, s, t);
    ReachesStep(max, s, t, Send(i));
    ReturningGivesBack(max, s, Next(max, t, Send(i)), i);
  }

  /** Exactly the tokens of detections that are not doomed can still come back. */
  lemma TokenComesBackIff(max: nat, s: State, i: nat)
    requires Inv(max, s) && i < |s.workers| && Holds(s.workers[i])
    ensures CanGiveBack(max, s, i) <==> !Doomed(s, i)
  {
    hide Reaches, Held;
    ReachesSelf(max, s);
    if CanGiveBack(max, s, i) {
      var t :| Reaches(max, s, t) && WellFormed(t) && InPhase(t, i, Returning) && Enabled(max, t, GiveBack(i));
      FutureKeepsInv(max, s, t);
      assert !Doomed(t, i);
    }
    if !Doomed(s, i) {
      hide CanGiveBack;
      match s.workers[i].phase {
        case Returning => ReturningGivesBack(max, s, s, i);
        case Sending => SendingGivesBack(max, s, s, i);
        case Running =>
          ReachesStep(max, s, s, Detected(i));
          SendingGivesBack(max, s, Next(max, s, Detected(i)), i);
      }
    }
  }

  // ---- lost tokens ----

  function CountDoomed(s: State, n: nat): nat
    requires n <= |s.workers|
  {
    if n == 0 then 0 else CountDoomed(s, n - 1) + if Doomed(s, n - 1) then 1 else 0
  }

  function Lost(s: State): nat {
    CountDoomed(s, |s.workers|)
  }

  /** The doomed are among the holders, and are all of them only if every holder is doomed. */
  lemma {:induction false} DoomedAreHeld(s: State, n: nat)
    requires n <= |s.workers|
    ensures CountDoomed(s, n) <= Held(s.workers[..n])
    ensures CountDoomed(s, n) < Held(s.workers[..n]) ==> exists i: nat :: i < n && Holds(s.workers[i]) && !Doomed(s, i)
  {
    if n > 0 {
      DoomedAreHeld(s, n - 1);
      assert s.workers[..n][..n - 1] == s.workers[..n - 1];
    }
  }

  lemma {:induction false} DoomedCountGrows(s: State, t: State, n: nat)
    requires n <= |s.workers| <= |t.workers|
    requires forall i :: 0 <= i < n && Doomed(s, i) ==> Doomed(t, i)
    ensures CountDoomed(s, n) <= CountDoomed(t, n) <= Lost(t)
  {
    if n > 0 {
      DoomedCountGrows(s, t, n - 1);
    }
    DoomedCountMonotone(t, n, |t.workers|);
  }

  lemma {:induction false} DoomedCountMonotone(s: State, n: nat, m: nat)
    requires n <= m <= |s.workers|
    ensures CountDoomed(s, n) <= CountDoomed(s, m)
  {
    if n < m {
      DoomedCountMonotone(s, n, m - 1);
    }
  }

  lemma LostIsHeld(s: State)
    ensures Lost(s) <= Held(s.workers)
    ensures Lost(s) < Held(s.workers) ==> exists i: nat :: i < |s.workers| && Holds(s.workers[i]) && !Doomed(s, i)
  {
    DoomedAreHeld(s, |s.workers|);
    assert s.workers[..|s.workers|] == s.workers;
  }

  /** Lost tokens stay lost, and what is left of the maximum is all that can ever be in use. */
  lemma LostTokensStayLost(max: nat, s: State, t: State)
    requires max > 0 && Inv(max, s) && Reaches(max, s, t)
    ensures Lost(s) <= Lost(t)
    ensures t.unfilled + t.buffered + (Held(t.workers) - Lost(t)) == max - Lost(t) <= max - Lost(s)
  {
    hide Reaches, Held, CountDoomed, Doomed;
    FutureKeepsInv(max, s, t);
    LostCountGrows(s, t);
  }

  lemma LostCountGrows(s: State, t: State)
    requires |s.workers| <= |t.workers| && forall i :: Doomed(s, i) ==> Doomed(t, i)
    ensures Lost(s) <= Lost(t)
  {
    DoomedCountGrows(s, t, |s.workers|);
  }

  ghost predicate SomeAcquires(max: nat, s: State) {
    exists t, i :: Reaches(max, s, t) && WellFormed(t) && Enabled(max, t, Acquire(i))
  }

  /** A token in the channel goes to the next detection. */
  lemma BufferedIsAcquired(max: nat, s: State, t: State)
    requires Inv(max, s) && Reaches(max, s, t) && t.buffered > 0
    ensures SomeAcquires(max, s)
  {
    hide Reaches, Held;
    FutureKeepsInv(max, s, t);
    ReachesStep(max, s, t, Open(1));
    var u := Next(max, t, Open(1));
    assert InPhase(u, |t.workers|, Waiting);
    FutureKeepsInv(max, s, u);
    assert Enabled(max, u, Acquire(|t.workers|));
  }

  /** Some detection can still start exactly when not all tokens are lost. */
  lemma DetectionStopsIff(max: nat, s: State)
    requires max > 0 && Inv(max, s)
    ensures SomeAcquires(max, s) <==> Lost(s) < max
  {
    hide Reaches, Held, CountDoomed;
    LostIsHeld(s);
    ReachesSelf(max, s);
    if SomeAcquires(max, s) {
      var t, i :| Reaches(max, s, t) && WellFormed(t) && Enabled(max, t, Acquire(i));
      LostTokensStayLost(max, s, t);
      LostIsHeld(t);
    }
    if Lost(s) < max {
      hide SomeAcquires;
      if s.buffered > 0 {
        BufferedIsAcquired(max, s, s);
      } else if s.unfilled > 0 {
        ReachesStep(max, s, s, Fill);
        BufferedIsAcquired(max, s, Next(max, s, Fill));
      } else {
        var i: nat :| i < |s.workers| && Holds(s.workers[i]) && !Doomed(s, i);
        TokenComesBackIff(max, s, i);
        var t :| Reaches(max, s, t) && WellFormed(t) && InPhase(t, i, Returning) && Enabled(max, t, GiveBack(i));
        ReachesStep(max, s, t, GiveBack(i));
        BufferedIsAcquired(max, s, Next(max, t, GiveBack(i)));
      }
    }
  }

  /** It happens: one token, one detection cancelled while it detects. */
  lemma ATokenCanBeLost()
    ensures exists s :: Reaches(1, Init(1), s) && Lost(s) == 1
  {
    hide Reaches, Steps;
    var lost := State(0, 0, [Worker(0, Running)], [Group(true, false)]);
    assert Reaches(1, Init(1), lost) by {
      ReachesSelf(1, Init(1));
      var s1 := State(0, 1, [], []);
      ReachesStep(1, Init(1), Init(1), Fill);
      var s2 := State(0, 1, [Worker(0, Waiting)], [Group(false, true)]);
      assert Next(1, s1, Open(1)) == s2;
      ReachesStep(1, Init(1), s1, Open(1));
      var s3 := State(0, 0, [Worker(0, Running)], [Group(false, true)]);
      assert Next(1, s2, Acquire(0)) == s3;
      ReachesStep(1, Init(1), s2, Acquire(0));
      var s4 := State(0, 0, [Worker(0, Running)], [Group(true, true)]);
      assert Next(1, s3, CancelGroup(0)) == s4;
      ReachesStep(1, Init(1), s3, CancelGroup(0));
      assert Next(1, s4, Leave(0)) == lost;
      ReachesStep(1, Init(1), s4, Leave(0));
    }
    assert CountDoomed(lost, 0) == 0 && CountDoomed(lost, 1) == 1;
  }
}
