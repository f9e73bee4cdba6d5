/** The proxy syncer's event loop (projects/gateway2/proxy_syncer/queue.go, proxy_syncer.go): capacity-1 queues that drop
    the oldest item, any number of concurrent producers, one consumer with a warm-up gate. */
module SyncLoop {
  import opened Common
  import opened Sequences

  // ---- the queue, one select at a time ----

  class AsyncQueue<T> {
    var queue: Option<T>  // a channel of capacity 1

    constructor ()
      ensures queue == None
    {
      queue := None;
    }

    /** First select of Enqueue: receive if something is there. */
    method Drain()
      modifies this
      ensures queue == None
    {
      if queue.Some? {
        queue := None;
      }
    }

    /** Second select of Enqueue: send if there is room, otherwise drop the new item. */
    method Offer(t: T)
      modifies this
      ensures queue == if old(queue).None? then Some(t) else old(queue)
    {
      if queue.None? {
        queue := Some(t);
      }
    }

    /** Undisturbed, Enqueue replaces whatever was queued. */
    method Enqueue(t: T)
      modifies this
      ensures queue == Some(t)
    {
      Drain();
      Offer(t);
    }

    /** Dequeue, when an item is there or the context is done. */
    method Dequeue() returns (t: Option<T>)
      modifies this
      ensures t == old(queue) && queue == None
    {
      t := queue;
      queue := None;
    }
  }

  // ---- resync: the gate and the stamped ids ----

  datatype StampedProxy = StampedProxy(name: string, syncId: int)

  /** The proxies that were produced, in gateway order, each carrying `id`. */
  function Stamped(ts: seq<Option<string>>, id: int): seq<StampedProxy> {
    if ts == [] then []
    else Stamped(ts[..|ts| - 1], id) + if ts[|ts| - 1].Some? then [StampedProxy(ts[|ts| - 1].value, id)] else []
  }

  /** What is queued: one entry per produced proxy, in gateway order, under its name, and all carry the id. */
  lemma {:induction false} StampedIs(ts: seq<Option<string>>, id: int)
    ensures var produced := Filter((t: Option<string>) => t.Some?, ts);
      && |Stamped(ts, id)| == |produced|
      && forall i :: 0 <= i < |produced| ==> Stamped(ts, id)[i].syncId == id && Some(Stamped(ts, id)[i].name) == produced[i]
  {
    if ts != [] {
      StampedIs(ts[..|ts| - 1], id);
    }
  }

  class Syncer {
    var secretsWarmed: bool
    var totalResyncs: int

    constructor ()
      ensures !secretsWarmed && totalResyncs == 0
    {
      secretsWarmed, totalResyncs := false, 0;
    }

    /** `resyncProxies`. `translated` is None when listing gateways fails; otherwise it holds, per gateway, the proxy its
        translator produced, if any. What is queued for status carries the id of this resync. */
    method ResyncProxies(translated: Option<seq<Option<string>>>) returns (queued: Option<seq<StampedProxy>>)
      modifies this
      ensures secretsWarmed == old(secretsWarmed)
      ensures totalResyncs == old(totalResyncs) + if secretsWarmed then 1 else 0
      ensures queued.Some? <==> secretsWarmed && translated.Some?
      ensures queued.Some? ==> queued.value == Stamped(translated.value, totalResyncs)
    {
      if !secretsWarmed {
        return None;
      }
      totalResyncs := totalResyncs + 1;
      if translated.None? {
        return None;
      }
      var proxies: seq<StampedProxy> := [];
      var ts := translated.value;
      for i := 0 to |ts|
        invariant proxies == Stamped(ts[..i], totalResyncs)
      {
        assert ts[..i + 1][..i] == ts[..i];
        if ts[i].Some? {
          proxies := proxies + [StampedProxy(ts[i].value, totalResyncs)];
        }
      }
      assert ts[..|ts|] == ts;
      return Some(proxies);
    }
  }

  // ---- producers and loop, interleaved at select granularity ----

  datatype QueueId = GenericEvent | SecretEvent

  type CallId = nat

  /** A caller inside Enqueue: before or after its first select. */
  datatype Call = Call(queue: QueueId, drained: bool)

  datatype State = State(
    full: set<QueueId>,
    calls: map<CallId, Call>,        // callers that are mid-Enqueue
    began: map<CallId, nat>,         // when each call, finished or not, began
    target: map<CallId, QueueId>,    // the queue of each call
    warmed: bool,
    busy: bool,                      // the loop is inside a resync
    lastResync: Option<nat>,         // when the last resync began
    clock: nat)

  datatype Action =
    | Begin(c: CallId, q: QueueId)
    | DrainStep(c: CallId)
    | OfferStep(c: CallId)
    | Take(q: QueueId)
    | Finish

  const INITIAL := State({}, map[], map[], map[], false, false, None, 0)

  predicate Enabled(s: State, a: Action) {
    match a
    case Begin(c, _) => c !in s.began
    case DrainStep(c) => c in s.calls && !s.calls[c].drained
    case OfferStep(c) => c in s.calls && s.calls[c].drained
    case Take(q) => !s.busy && q in s.full
    case Finish => s.busy
  }

  function Step(s: State, a: Action): State
    requires Enabled(s, a)
  {
    var t := s.(clock := s.clock + 1);
    match a
    case Begin(c, q) =>
      t.(calls := s.calls[c := Call(q, false)], began := s.began[c := s.clock], target := s.target[c := q])
    case DrainStep(c) => t.(full := s.full - {s.calls[c].queue}, calls := s.calls[c := s.calls[c].(drained := true)])
    case OfferStep(c) => t.(full := s.full + {s.calls[c].queue}, calls := s.calls - {c})
    case Take(q) =>
      var warmed := s.warmed || q == SecretEvent;
      t.(full := s.full - {q}, warmed := warmed, busy := warmed, lastResync := if warmed then Some(s.clock) else s.lastResync)
    case Finish => t.(busy := false)
  }

  ghost predicate IsRun(s: State, actions: seq<Action>)
    decreases |actions|
  {
    actions == [] || (Enabled(s, actions[0]) && IsRun(Step(s, actions[0]), actions[1..]))
  }

  ghost function Final(s: State, actions: seq<Action>): State
    requires IsRun(s, actions)
    decreases |actions|
  {
    if actions == [] then s else Final(Step(s, actions[0]), actions[1..])
  }

  /** Something on this queue is still going to reach the loop. */
  ghost predicate Pending(s: State, q: QueueId) {
    q in s.full || exists c :: c in s.calls && s.calls[c].queue == q
  }

  /** Every call either began before the last resync or is still pending on its queue. */
  ghost predicate Inv(s: State) {
    && s.began.Keys == s.target.Keys && s.calls.Keys <= s.began.Keys
    && (forall c <- s.began :: s.began[c] < s.clock)
    && (forall c <- s.calls :: s.calls[c].queue == s.target[c])
    && (s.warmed ==> s.lastResync.Some?)
    && (s.warmed ==> forall c <- s.began :: s.began[c] < s.lastResync.value || Pending(s, s.target[c]))
  }

  lemma StepKeepsInv(s: State, a: Action)
    requires Inv(s) && Enabled(s, a)
    ensures Inv(Step(s, a))
  {
    var t := Step(s, a);
    if t.warmed && !a.Take? {
      forall c | c in t.began ensures t.began[c] < t.lastResync.value || Pending(t, t.target[c]) {
        match a {
          case Begin(b, q) =>
            if c == b {
              assert t.calls[b].queue == t.target[c];
            } else if Pending(s, s.target[c]) && s.target[c] !in s.full {
              var d :| d in s.calls && s.calls[d].queue == s.target[c];
              assert d in t.calls && t.calls[d].queue == t.target[c];
            }
          case DrainStep(b) =>
            if Pending(s, s.target[c]) {
              if s.target[c] == s.calls[b].queue {
                assert t.calls[b].queue == t.target[c];
              } else if s.target[c] !in s.full {
                var d :| d in s.calls && s.calls[d].queue == s.target[c];
                assert t.calls[d].queue == t.target[c];
              }
            }
          case OfferStep(b) =>
            if Pending(s, s.target[c]) && s.target[c] !in t.full {
              var d :| d in s.calls && s.calls[d].queue == s.target[c];
              assert d in t.calls && t.calls[d].queue == t.target[c];
            }
          case Finish =>
            assert Pending(s, s.target[c]) ==> Pending(t, t.target[c]);
          case Take(_) =>
        }
      }
    }
  }

  lemma {:induction false} RunKeepsInv(s: State, actions: seq<Action>)
    requires Inv(s) && IsRun(s, actions)
    ensures Inv(Final(s, actions))
    decreases |actions|
  {
    if actions != [] {
      StepKeepsInv(s, actions[0]);
      RunKeepsInv(Step(s, actions[0]), actions[1..]);
    }
  }

  /** No caller is mid-Enqueue, both queues are empty and the loop is idle. */
  predicate Quiescent(s: State) {
    s.calls == map[] && s.full == {} && !s.busy
  }

  /** No lost wakeup: at rest, once warmed, the last resync began after every Enqueue that ever began. */
  lemma NoLostWakeup(actions: seq<Action>)
    requires IsRun(INITIAL, actions)
    ensures var s := Final(INITIAL, actions);
      s.warmed && Quiescent(s) ==> s.lastResync.Some? && forall c <- s.began :: s.began[c] < s.lastResync.value
  {
    RunKeepsInv(INITIAL, actions);
  }

  // ---- the warm-up gate ----

  /** The loop is warmed by the first secret event, and by nothing else; before that no resync ever began. */
  lemma {:induction false} WarmedIff(s: State, actions: seq<Action>)
    requires IsRun(s, actions) && (!s.warmed ==> s.lastResync == None)
    ensures Final(s, actions).warmed <==> s.warmed || Take(SecretEvent) in actions
    ensures !Final(s, actions).warmed ==> Final(s, actions).lastResync == None
    decreases |actions|
  {
    if actions != [] {
      assert actions == [actions[0]] + actions[1..];
      WarmedIff(Step(s, actions[0]), actions[1..]);
    }
  }

  /** Once warmed, every event taken from a queue begins a resync, at the time it is taken. */
  lemma TakeResyncs(s: State, q: QueueId)
    requires Enabled(s, Take(q)) && (s.warmed || q == SecretEvent)
    ensures Step(s, Take(q)).lastResync == Some(s.clock) && q !in Step(s, Take(q)).full
  {
  }
}
