/** Cert rotation as a distributed protocol: one writer that may be cancelled, crash and be restarted with fresh certs
    at any point, and any number of pods holding lagging snapshots of the secret. */
module RotationProtocol {
  import opened CertRotation

  type Pod = nat

  datatype Writer =
    | Idle
    | Writing(step: nat, current: TlsSecret, next: nat, cancelled: bool)  // about to write plan[step]
    | Waiting(step: nat, current: TlsSecret, next: nat, cancelled: bool)  // in the grace wait after writing plan[step]

  /** `history` holds every stored version of the secret; a pod holds the version at its index. */
  datatype State = State(files: Files, history: seq<SecretData>, pods: map<Pod, nat>, writer: Writer, nextGen: nat)

  datatype Action =
    | StartRotation
    | Write
    | WriteFails
    | WaitSettles
    | WaitCancelled
    | Cancel
    | Crash
    | PodJoins(pod: Pod)
    | PodLeaves(pod: Pod)
    | PodRefreshes(pod: Pod, version: nat)

  function Latest(s: State): nat
    requires s.history != []
  {
    |s.history| - 1
  }

  /** The data that write number `step` of a rotation stores. */
  function PlanData(current: TlsSecret, next: nat, step: nat): SecretData
    requires step < 3
  {
    MakeTlsSecret(RotationPlan(current, GenCerts(next))[step])
  }

  /** The version about to be written. */
  function Upcoming(s: State): SecretData
    requires s.writer.Writing? && s.writer.step < 3
  {
    PlanData(s.writer.current, s.writer.next, s.writer.step)
  }

  predicate AllCaughtUp(s: State)
    requires s.history != []
  {
    forall p <- s.pods :: s.pods[p] == Latest(s)
  }

  /** The two assumptions about the environment are here: an uncancelled wait ends only when every pod has caught up,
      and no write succeeds once the context is cancelled. */
  predicate Enabled(s: State, a: Action)
    requires s.history != []
  {
    var w := s.writer;
    match a
    case StartRotation => w.Idle?
    case Write => w.Writing? && w.step < 3 && !w.cancelled
    case WriteFails => w.Writing?
    case WaitSettles => w.Waiting? && !w.cancelled && AllCaughtUp(s)
    case WaitCancelled => w.Waiting? && w.cancelled
    case Cancel => !w.Idle?
    case Crash => !w.Idle?
    case PodJoins(p) => p !in s.pods
    case PodLeaves(p) => p in s.pods
    case PodRefreshes(p, v) => p in s.pods && s.pods[p] <= v < |s.history|
  }

  function Next(s: State, a: Action): (s': State)
    requires s.history != [] && Enabled(s, a)
    ensures s'.history != []
  {
    var w := s.writer;
    match a
    case StartRotation =>
      s.(writer := Writing(0, ParseTlsSecret(s.history[Latest(s)], s.files), s.nextGen, false), nextGen := s.nextGen + 1)
    case Write =>
      s.(history := s.history + [PlanData(w.current, w.next, w.step)],
         writer := if w.step == 2 then Idle else Waiting(w.step, w.current, w.next, w.cancelled))
    case WriteFails => s.(writer := Idle)
    case WaitSettles => s.(writer := Writing(w.step + 1, w.current, w.next, false))
    case WaitCancelled => s.(writer := Writing(w.step + 1, w.current, w.next, true))
    case Cancel => s.(writer := w.(cancelled := true))
    case Crash => s.(writer := Idle)
    case PodJoins(p) => s.(pods := s.pods[p := Latest(s)])
    case PodLeaves(p) => s.(pods := s.pods - {p})
    case PodRefreshes(p, v) => s.(pods := s.pods[p := v])
  }

  // ---- trust ----

  /** Every server certificate in `holder` is issued by a CA in the bundle of `verifier`. */
  ghost predicate Trusts(files: Files, verifier: SecretData, holder: SecretData) {
    forall pem <- Entry(holder, files.cert) :: pem.ServerCert? && CaCert(pem.gen) in Entry(verifier, files.caBundle)
  }

  /** Certificate and private key are those of generation `gen`. */
  ghost predicate IsGeneration(files: Files, data: SecretData, gen: nat) {
    && data.Keys == {files.key, files.cert, files.caBundle}
    && data[files.cert] == [ServerCert(gen)] && data[files.key] == [PrivateKey(gen)]
  }

  ghost predicate OneGeneration(files: Files, data: SecretData) {
    exists gen: nat :: IsGeneration(files, data, gen)
  }

  /** Generations mentioned in the version are all below `bound`. */
  ghost predicate Below(files: Files, data: SecretData, bound: nat) {
    && (exists gen: nat :: gen < bound && IsGeneration(files, data, gen))
    && forall pem <- Entry(data, files.caBundle) :: pem.CaCert? && pem.gen < bound
  }

  ghost predicate Init(s: State) {
    && DistinctFiles(s.files) && |s.history| == 1 && s.pods == map[] && s.writer == Idle
    && Below(s.files, s.history[0], s.nextGen) && Trusts(s.files, s.history[0], s.history[0])
  }

  /** From version `lo` on, everybody trusts everybody. */
  ghost predicate TrustFrom(files: Files, history: seq<SecretData>, lo: nat) {
    forall i, j :: lo <= i < |history| && lo <= j < |history| ==> Trusts(files, history[i], history[j])
  }

  /** The number of versions the current run has written so far. */
  function Written(w: Writer): nat
    requires !w.Idle?
  {
    if w.Writing? then w.step else w.step + 1
  }

  /** The last versions are those written by the current run, on top of the one it started from, and no version before
      them knows of the new generation. */
  ghost predicate RunInv(files: Files, history: seq<SecretData>, n: nat, current: TlsSecret, next: nat, nextGen: nat) {
    && n < 3 && n < |history|
    && current.files == files && next < nextGen
    && history[|history| - 1 - n] == MakeTlsSecret(current)
    && (n >= 1 ==> history[|history| - n] == PlanData(current, next, 0))
    && (n == 2 ==> history[|history| - 1] == PlanData(current, next, 1))
    && forall i :: 0 <= i < |history| - n ==> Below(files, history[i], next)
  }

  ghost predicate WriterInv(s: State)
    requires s.history != []
  {
    !s.writer.Idle? ==>
      && RunInv(s.files, s.history, Written(s.writer), s.writer.current, s.writer.next, s.nextGen)
      && (s.writer.Writing? && s.writer.step > 0 && !s.writer.cancelled ==> AllCaughtUp(s))
  }

  ghost predicate HistoryInv(files: Files, history: seq<SecretData>, nextGen: nat) {
    && DistinctFiles(files) && history != []
    && (forall i :: 0 <= i < |history| ==> Below(files, history[i], nextGen))
    && TrustFrom(files, history, |history| - 1)
  }

  ghost predicate PodsInv(files: Files, history: seq<SecretData>, pods: map<Pod, nat>) {
    forall p <- pods :: pods[p] < |history| && TrustFrom(files, history, pods[p])
  }

  ghost predicate Inv(s: State) {
    HistoryInv(s.files, s.history, s.nextGen) && PodsInv(s.files, s.history, s.pods) && WriterInv(s)
  }

  lemma InitInv(s: State)
    requires Init(s)
    ensures Inv(s)
  {
  }

  // ---- every step keeps the invariant ----

  /** What is stored for plan[step], entry by entry. */
  lemma PlanEntries(current: TlsSecret, next: nat, step: nat)
    requires DistinctFiles(current.files) && step < 3
    ensures var data, files := PlanData(current, next, step), current.files;
      && data.Keys == {files.key, files.cert, files.caBundle}
      && data[files.cert] == (if step == 0 then current.cert else [ServerCert(next)])
      && data[files.key] == (if step == 0 then current.privateKey else [PrivateKey(next)])
      && data[files.caBundle] == (if step == 2 then [CaCert(next)] else current.caBundle + [CaCert(next)])
    ensures var data, files := MakeTlsSecret(current), current.files;
      data[files.cert] == current.cert && data[files.key] == current.privateKey && data[files.caBundle] == current.caBundle
  {
  }

  lemma PlanBelow(current: TlsSecret, next: nat, step: nat)
    requires DistinctFiles(current.files) && step < 3
    requires Below(current.files, MakeTlsSecret(current), next)
    ensures Below(current.files, PlanData(current, next, step), next + 1)
  {
    PlanEntries(current, next, step);
    var data := PlanData(current, next, step);
    if step == 0 {
      var gen: nat :| gen < next && IsGeneration(current.files, MakeTlsSecret(current), gen);
      assert IsGeneration(current.files, data, gen);
    } else {
      assert IsGeneration(current.files, data, next);
    }
  }

  lemma BelowMonotone(files: Files, data: SecretData, a: nat, b: nat)
    requires Below(files, data, a) && a <= b
    ensures Below(files, data, b)
  {
    var gen: nat :| gen < a && IsGeneration(files, data, gen);
  }

  /** Appending a version that trusts, and is trusted by, a whole window extends the window. */
  lemma ExtendWindow(files: Files, history: seq<SecretData>, lo: nat, data: SecretData)
    requires lo <= |history| && TrustFrom(files, history, lo) && Trusts(files, data, data)
    requires forall i :: lo <= i < |history| ==> Trusts(files, data, history[i]) && Trusts(files, history[i], data)
    ensures TrustFrom(files, history + [data], lo)
  {
  }

  /** First write: the bundle only grows and the certificate stays, so trust with any version carries over. */
  lemma FirstWriteTrust(current: TlsSecret, next: nat, other: SecretData)
    requires DistinctFiles(current.files)
    requires Trusts(current.files, MakeTlsSecret(current), other) && Trusts(current.files, other, MakeTlsSecret(current))
    ensures Trusts(current.files, PlanData(current, next, 0), other) && Trusts(current.files, other, PlanData(current, next, 0))
  {
    PlanEntries(current, next, 0);
  }

  /** Second and third write: trust with the version just before. */
  lemma LaterWriteTrust(current: TlsSecret, next: nat, step: nat)
    requires DistinctFiles(current.files) && 0 < step < 3
    requires Trusts(current.files, PlanData(current, next, step - 1), PlanData(current, next, step - 1))
    ensures var before, data := PlanData(current, next, step - 1), PlanData(current, next, step);
      Trusts(current.files, data, before) && Trusts(current.files, before, data) && Trusts(current.files, data, data)
  {
    PlanEntries(current, next, step - 1);
    PlanEntries(current, next, step);
  }

  /** The new version and version i trust each other, for every i that a pod may still be at. */
  lemma PlanTrust(history: seq<SecretData>, n: nat, current: TlsSecret, next: nat, nextGen: nat, lo: nat, i: nat)
    requires RunInv(current.files, history, n, current, next, nextGen) && DistinctFiles(current.files)
    requires lo <= i < |history| && TrustFrom(current.files, history, lo)
    requires n > 0 ==> lo == |history| - 1
    ensures var data := PlanData(current, next, n);
      Trusts(current.files, data, history[i]) && Trusts(current.files, history[i], data) && Trusts(current.files, data, data)
  {
    var last := history[|history| - 1];
    assert Trusts(current.files, last, history[i]) && Trusts(current.files, history[i], last) && Trusts(current.files, last, last);
    if n == 0 {
      FirstWriteTrust(current, next, last);
      FirstWriteTrust(current, next, PlanData(current, next, 0));
      FirstWriteTrust(current, next, history[i]);
    } else {
      LaterWriteTrust(current, next, n);
    }
  }

  lemma WriteTrust(s: State, lo: nat, i: nat)
    requires Inv(s) && s.writer.Writing? && lo <= i < |s.history| && TrustFrom(s.files, s.history, lo)
    requires s.writer.step > 0 ==> lo == Latest(s)
    ensures Trusts(s.files, Upcoming(s), s.history[i]) && Trusts(s.files, s.history[i], Upcoming(s))
    ensures Trusts(s.files, Upcoming(s), Upcoming(s))
  {
    PlanTrust(s.history, s.writer.step, s.writer.current, s.writer.next, s.nextGen, lo, i);
  }

  lemma WriteKeepsTrust(s: State)
    requires Inv(s) && Enabled(s, Write)
    ensures var s' := Next(s, Write);
      PodsInv(s'.files, s'.history, s'.pods) && TrustFrom(s'.files, s'.history, |s'.history| - 1)
  {
    var s' := Next(s, Write);
    var data := Upcoming(s);
    forall p | p in s.pods ensures TrustFrom(s'.files, s'.history, s.pods[p]) {
      forall i | s.pods[p] <= i < |s.history| ensures Trusts(s.files, data, s.history[i]) && Trusts(s.files, s.history[i], data) {
        WriteTrust(s, s.pods[p], i);
      }
      WriteTrust(s, s.pods[p], Latest(s));
      ExtendWindow(s.files, s.history, s.pods[p], data);
    }
    WriteTrust(s, Latest(s), Latest(s));
    ExtendWindow(s.files, s.history, |s.history|, data);
  }

  lemma RunInvExtends(files: Files, history: seq<SecretData>, n: nat, current: TlsSecret, next: nat, nextGen: nat)
    requires RunInv(files, history, n, current, next, nextGen) && n < 2
    ensures RunInv(files, history + [PlanData(current, next, n)], n + 1, current, next, nextGen)
  {
  }

  lemma HistoryInvExtends(files: Files, history: seq<SecretData>, nextGen: nat, data: SecretData)
    requires HistoryInv(files, history, nextGen) && Below(files, data, nextGen)
    requires TrustFrom(files, history + [data], |history|)
    ensures HistoryInv(files, history + [data], nextGen)
  {
  }

  lemma WriteKeepsInv(s: State)
    requires Inv(s) && Enabled(s, Write)
    ensures Inv(Next(s, Write))
  {
    hide HistoryInv, PodsInv, RunInv, Below, TrustFrom, PlanData, MakeTlsSecret;
    var w := s.writer;
    WriteKeepsTrust(s);
    UpcomingIsBelow(s);
    HistoryInvExtends(s.files, s.history, s.nextGen, Upcoming(s));
    if w.step < 2 {
      RunInvExtends(s.files, s.history, w.step, w.current, w.next, s.nextGen);
    }
  }

  /** The version about to be written mentions no generation that was not handed out. */
  lemma UpcomingIsBelow(s: State)
    requires Inv(s) && Enabled(s, Write)
    ensures Below(s.files, Upcoming(s), s.nextGen)
  {
    var w := s.writer;
    assert Below(s.files, s.history[Latest(s) - w.step], w.next);
    PlanBelow(w.current, w.next, w.step);
    BelowMonotone(s.files, Upcoming(s), w.next + 1, s.nextGen);
  }

  lemma StartKeepsInv(s: State)
    requires Inv(s) && Enabled(s, StartRotation)
    ensures Inv(Next(s, StartRotation))
  {
    var s' := Next(s, StartRotation);
    assert Below(s.files, s.history[Latest(s)], s.nextGen);
    MakeParseRoundTrip(s.history[Latest(s)], s.files);
    forall i | 0 <= i < |s.history| ensures Below(s.files, s'.history[i], s'.nextGen) {
      BelowMonotone(s.files, s.history[i], s.nextGen, s'.nextGen);
    }
  }

  lemma PodStepKeepsInv(s: State, a: Action)
    requires Inv(s) && Enabled(s, a) && (a.PodJoins? || a.PodLeaves? || a.PodRefreshes?)
    ensures Inv(Next(s, a))
  {
    hide RunInv, Below, TrustFrom;
    var s' := Next(s, a);
    PodStepKeepsPods(s, a);
    assert s'.history == s.history && s'.writer == s.writer && s'.files == s.files && s'.nextGen == s.nextGen;
  }

  lemma PodStepKeepsPods(s: State, a: Action)
    requires Inv(s) && Enabled(s, a) && (a.PodJoins? || a.PodLeaves? || a.PodRefreshes?)
    ensures PodsInv(s.files, s.history, Next(s, a).pods)
    ensures AllCaughtUp(s) ==> AllCaughtUp(Next(s, a))
  {
    hide RunInv, Below, Trusts;
    if a.PodRefreshes? {
      assert TrustFrom(s.files, s.history, a.version);
    }
  }

  lemma NextKeepsInv(s: State, a: Action)
    requires Inv(s) && Enabled(s, a)
    ensures Inv(Next(s, a))
  {
    match a {
      case Write => WriteKeepsInv(s);
      case StartRotation => StartKeepsInv(s);
      case PodJoins(_) => PodStepKeepsInv(s, a);
      case PodLeaves(_) => PodStepKeepsInv(s, a);
      case PodRefreshes(_, _) => PodStepKeepsInv(s, a);
      case WaitSettles => ControlStepKeepsInv(s, a);
      case WaitCancelled => ControlStepKeepsInv(s, a);
      case Cancel => ControlStepKeepsInv(s, a);
      case Crash =>
      case WriteFails =>
    }
  }

  lemma ControlStepKeepsInv(s: State, a: Action)
    requires Inv(s) && Enabled(s, a) && (a.WaitSettles? || a.WaitCancelled? || a.Cancel?)
    ensures Inv(Next(s, a))
  {
    var s' := Next(s, a);
    assert Written(s'.writer) == Written(s.writer);
  }

  // ---- runs ----

  ghost predicate IsRun(s: State, actions: seq<Action>)
    requires s.history != []
    decreases |actions|
  {
    actions == [] || (Enabled(s, actions[0]) && IsRun(Next(s, actions[0]), actions[1..]))
  }

  ghost function Final(s: State, actions: seq<Action>): State
    requires s.history != [] && IsRun(s, actions)
    decreases |actions|
  {
    if actions == [] then s else Final(Next(s, actions[0]), actions[1..])
  }

  lemma {:induction false} RunKeepsInv(s: State, actions: seq<Action>)
    requires Inv(s) && IsRun(s, actions)
    ensures Inv(Final(s, actions))
    decreases |actions|
  {
    if actions != [] {
      NextKeepsInv(s, actions[0]);
      RunKeepsInv(Next(s, actions[0]), actions[1..]);
    }
  }

  function Held(s: State, p: Pod): SecretData
    requires p in s.pods && s.pods[p] < |s.history|
  {
    s.history[s.pods[p]]
  }

  /** Zero downtime: in every reachable state every pod trusts the server certificate of every pod, and every stored
      version has certificate and key of one generation. */
  lemma RotationNeverBreaksTrust(s: State, actions: seq<Action>)
    requires Init(s) && IsRun(s, actions)
    ensures var t := Final(s, actions);
      && (forall p <- t.pods :: t.pods[p] < |t.history|)
      && (forall p, q :: p in t.pods && q in t.pods ==> Trusts(t.files, Held(t, p), Held(t, q)))
      && (forall i :: 0 <= i < |t.history| ==> OneGeneration(t.files, t.history[i]))
  {
    InitInv(s);
    RunKeepsInv(s, actions);
    InvMeansTrust(Final(s, actions));
  }

  lemma InvMeansTrust(t: State)
    requires Inv(t)
    ensures forall p, q :: p in t.pods && q in t.pods ==> Trusts(t.files, Held(t, p), Held(t, q))
    ensures forall i :: 0 <= i < |t.history| ==> OneGeneration(t.files, t.history[i])
  {
    forall p, q | p in t.pods && q in t.pods ensures Trusts(t.files, Held(t, p), Held(t, q)) {
      if t.pods[p] <= t.pods[q] {
        assert TrustFrom(t.files, t.history, t.pods[p]);
      } else {
        assert TrustFrom(t.files, t.history, t.pods[q]);
      }
    }
    forall i | 0 <= i < |t.history| ensures OneGeneration(t.files, t.history[i]) {
      assert Below(t.files, t.history[i], t.nextGen);
    }
  }

  /** Before the third write, a pod that has not caught up still serves an older generation. */
  lemma LaggingGeneration(s: State, p: Pod)
    requires Inv(s) && s.writer.Writing? && s.writer.step == 2 && p in s.pods && s.pods[p] < Latest(s)
    ensures exists gen: nat :: gen < s.writer.next && IsGeneration(s.files, Held(s, p), gen)
  {
    hide TrustFrom, PlanData, MakeTlsSecret, IsGeneration;
    var w := s.writer;
    if s.pods[p] == Latest(s) - 1 {
      assert Below(s.files, s.history[Latest(s) - 2], w.next);
      assert Held(s, p) == PlanData(w.current, w.next, 0) && w.current.files == s.files;
      FirstWriteKeepsGeneration(w.current, w.next);
    } else {
      assert Below(s.files, Held(s, p), w.next);
    }
  }

  /** The first write leaves certificate and key alone. */
  lemma FirstWriteKeepsGeneration(current: TlsSecret, next: nat)
    requires DistinctFiles(current.files) && Below(current.files, MakeTlsSecret(current), next)
    ensures exists gen: nat :: gen < next && IsGeneration(current.files, PlanData(current, next, 0), gen)
  {
    hide MakeTlsSecret, PlanData;
    PlanEntries(current, next, 0);
    var gen: nat :| gen < next && IsGeneration(current.files, MakeTlsSecret(current), gen);
    assert IsGeneration(current.files, PlanData(current, next, 0), gen);
  }

  /** The grace waits are not just sufficient: a second or third write made while pods lag is safe for all of them
      exactly when none of them lags. */
  lemma WaitIsExactlyWhatIsNeeded(s: State)
    requires Inv(s) && s.writer.Writing? && s.writer.step > 0
    ensures (forall p <- s.pods :: Trusts(s.files, Held(s, p), Upcoming(s)) && Trusts(s.files, Upcoming(s), Held(s, p)))
       <==> AllCaughtUp(s)
  {
    forall p | p in s.pods
      ensures (Trusts(s.files, Held(s, p), Upcoming(s)) && Trusts(s.files, Upcoming(s), Held(s, p))) <==> s.pods[p] == Latest(s)
    {
      if s.pods[p] < Latest(s) {
        LaggingPodLosesTrust(s, p);
      } else {
        WriteTrust(s, s.pods[p], s.pods[p]);
      }
    }
  }

  lemma LaggingPodLosesTrust(s: State, p: Pod)
    requires Inv(s) && s.writer.Writing? && s.writer.step > 0 && p in s.pods && s.pods[p] < Latest(s)
    ensures !(Trusts(s.files, Held(s, p), Upcoming(s)) && Trusts(s.files, Upcoming(s), Held(s, p)))
  {
    var w, held, data := s.writer, Held(s, p), Upcoming(s);
    PlanEntries(w.current, w.next, w.step);
    if w.step == 1 {
      assert Below(s.files, held, w.next);
      assert ServerCert(w.next) in Entry(data, s.files.cert);
    } else {
      LaggingGeneration(s, p);
      var gen: nat :| gen < w.next && IsGeneration(s.files, held, gen);
      assert ServerCert(gen) in Entry(held, s.files.cert);
    }
  }

  /** Replacing an existing secret outright, as happens when its certificate is no longer usable, is safe exactly when
      nobody holds a version of it. */
  lemma ReplacementIsSafeIffUnheld(s: State)
    requires Inv(s)
    ensures (forall p <- s.pods :: Trusts(s.files, Held(s, p), CreatedData(s.files, GenCerts(s.nextGen)))) <==> s.pods.Keys == {}
  {
    forall p | p in s.pods ensures !Trusts(s.files, Held(s, p), CreatedData(s.files, GenCerts(s.nextGen))) {
      assert Below(s.files, Held(s, p), s.nextGen);
      assert ServerCert(s.nextGen) in Entry(CreatedData(s.files, GenCerts(s.nextGen)), s.files.cert);
    }
  }

  /** A created version is of one generation, trusts itself and mentions no other generation. */
  lemma CreatedIsOneGeneration(files: Files, gen: nat)
    requires DistinctFiles(files)
    ensures var data := CreatedData(files, GenCerts(gen));
      IsGeneration(files, data, gen) && Trusts(files, data, data) && Below(files, data, gen + 1)
  {
    CreatedEntries(files, GenCerts(gen));
    assert IsGeneration(files, CreatedData(files, GenCerts(gen)), gen);
  }

  /** So a first installation starts the protocol, and everything above holds from there. */
  lemma CreationStartsProtocol(files: Files, gen: nat)
    requires DistinctFiles(files)
    ensures Init(State(files, [CreatedData(files, GenCerts(gen))], map[], Idle, gen + 1))
  {
    CreatedIsOneGeneration(files, gen);
  }
}
