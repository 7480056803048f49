/**
 * The main-thread side of the worker protocol: a single background worker, a
 * request counter, the id of the request whose answer is still wanted, and the
 * settle callbacks of the promise waiting for it. Callbacks are identified by the
 * id of the call that created them. Timers, messages and errors arrive as
 * events; what the coordinator does in answer is a list of effects.
 */
module Coordinator {
  import opened Wrappers

  datatype State = State(
    worker: Option<nat>,          // generation of the live worker, if any
    workersCreated: nat,          // generations handed out so far
    counter: nat,                 // `requestIdCounter`
    current: Option<nat>,         // `currentRequestId`
    pendingResolve: Option<nat>,  // the call whose `resolve` is held
    pendingReject: Option<nat>)   // the call whose `reject` is held

  datatype Event =
    | Call                        // `processImageAsync`
    | TimerFires(id: nat)         // the deferred send of request `id`
    | Reply(id: nat)              // a `result` message from the worker
    | WorkerError(message: string)
    | Cancel                      // `cancelProcessing`
    | Terminate                   // `terminateWorker`

  datatype Effect =
    | Posted(requestId: nat, worker: nat)
    | Resolved(caller: nat)
    | Rejected(caller: nat, reason: string)
    | Terminated(worker: nat)

  const Initial := State(None, 0, 0, None, None, None)

  const CancelledReason := "Processing cancelled"

  /** The settle callbacks are held exactly for the current request, whose id was issued. */
  predicate Inv(s: State) {
    && s.pendingResolve == s.current
    && s.pendingReject == s.current
    && (s.current.Some? ==> 1 <= s.current.value <= s.counter)
    && (s.worker.Some? ==> s.worker.value < s.workersCreated)
  }

  /** `cleanup`: nothing is wanted any more. */
  function Cleanup(s: State): State {
    s.(current := None, pendingResolve := None, pendingReject := None)
  }

  /** `getWorker`: reuse the live worker or start a new generation. */
  function GetWorker(s: State): (r: (State, nat))
    ensures r.0.worker == Some(r.1)
    ensures s.worker.Some? ==> r == (s, s.worker.value)
    ensures s.worker.None? ==> r.1 == s.workersCreated && r.0.workersCreated == s.workersCreated + 1
  {
    if s.worker.Some? then (s, s.worker.value)
    else (s.(worker := Some(s.workersCreated), workersCreated := s.workersCreated + 1), s.workersCreated)
  }

  function Step(s: State, e: Event): (r: (State, seq<Effect>))
    ensures Inv(s) ==> Inv(r.0)
  {
    match e
    case Call =>
      var id := s.counter + 1;
      (s.(counter := id, current := Some(id), pendingResolve := Some(id), pendingReject := Some(id)), [])
    case TimerFires(id) =>
      if s.current != Some(id) then (s, [])
      else
        var (s1, w) := GetWorker(s);
        (s1, [Posted(id, w)])
    case Reply(id) =>
      if s.current != Some(id) then (s, [])
      else if s.pendingResolve.Some? then (Cleanup(s), [Resolved(s.pendingResolve.value)])
      else (s, [])
    case WorkerError(message) =>
      if s.pendingReject.Some? then (Cleanup(s), [Rejected(s.pendingReject.value, message)])
      else (s, [])
    case Cancel =>
      if s.current.None? then (s, [])
      else if s.pendingReject.Some? then (Cleanup(s), [Rejected(s.pendingReject.value, CancelledReason)])
      else (Cleanup(s), [])
    case Terminate =>
      var gone := if s.worker.Some? then [Terminated(s.worker.value)] else [];
      (Cleanup(s.(worker := None)), gone)
  }

  /** Each call takes a fresh id, larger than every id issued before, and makes it current. */
  lemma CallIssuesFreshId(s: State)
    ensures var s1 := Step(s, Call).0;
      && s1.counter == s.counter + 1
      && s1.current == Some(s1.counter)
      && s1.pendingResolve == Some(s1.counter) && s1.pendingReject == Some(s1.counter)
      && s1.worker == s.worker
  {
  }

  /** A reply whose id is not the current one changes nothing and settles nobody. */
  lemma StaleReplyIgnored(s: State, id: nat)
    requires s.current != Some(id)
    ensures Step(s, Reply(id)) == (s, [])
  {
  }

  /** The current reply resolves exactly the caller that issued its id, then clears everything. */
  lemma CurrentReplyResolves(s: State, id: nat)
    requires Inv(s) && s.current == Some(id)
    ensures Step(s, Reply(id)) == (Cleanup(s), [Resolved(id)])
  {
  }

  /** A deferred send goes out only for the current request, reusing or starting a worker. */
  lemma TimerPostsOnlyCurrent(s: State, id: nat)
    ensures var (s1, fx) := Step(s, TimerFires(id));
      && (s.current != Some(id) ==> s1 == s && fx == [])
      && (s.current == Some(id) ==> s1.current == s.current && s1.worker.Some? && fx == [Posted(id, s1.worker.value)])
  {
  }

  /**
   * A worker error rejects whichever caller is waiting, with the error's message,
   * whatever request the error came from: the event carries no id to check.
   */
  lemma ErrorRejectsWaitingCaller(s: State, message: string)
    requires Inv(s)
    ensures s.current.Some? ==> Step(s, WorkerError(message)) == (Cleanup(s), [Rejected(s.current.value, message)])
    ensures s.current.None? ==> Step(s, WorkerError(message)) == (s, [])
  {
  }

  /** Cancelling rejects the waiting caller with the cancellation reason and leaves nothing wanted. */
  lemma CancelRejectsWaitingCaller(s: State)
    requires Inv(s)
    ensures s.current.Some? ==> Step(s, Cancel) == (Cleanup(s), [Rejected(s.current.value, CancelledReason)])
    ensures s.current.None? ==> Step(s, Cancel) == (s, [])
  {
  }

  /**
   * Terminating drops the worker and the waiting caller without settling it; the
   * next send starts a worker of a generation never used before.
   */
  lemma TerminateThenFreshWorker(s: State, id: nat)
    requires Inv(s)
    ensures var s1 := Step(s, Terminate).0;
      && s1.worker.None? && s1.current.None? && s1.pendingResolve.None? && s1.pendingReject.None?
      && (forall fx :: fx in Step(s, Terminate).1 ==> !fx.Resolved? && !fx.Rejected?)
    ensures var s2 := Step(Step(Step(s, Terminate).0, Call).0, TimerFires(s.counter + 1));
      s2.1 == [Posted(s.counter + 1, s.workersCreated)] && s2.0.workersCreated == s.workersCreated + 1
  {
  }

  // ----- traces -----

  /** Runs a sequence of events, collecting the effects in order. */
  function Run(s: State, es: seq<Event>): (State, seq<Effect>)
    decreases |es|
  {
    if |es| == 0 then (s, [])
    else
      var (s1, fx1) := Step(s, es[0]);
      var (s2, fx2) := Run(s1, es[1..]);
      (s2, fx1 + fx2)
  }

  /** The callers settled by a list of effects, in order. */
  function Settled(fx: seq<Effect>): seq<nat> {
    if |fx| == 0 then []
    else if fx[0].Resolved? then [fx[0].caller] + Settled(fx[1..])
    else if fx[0].Rejected? then [fx[0].caller] + Settled(fx[1..])
    else Settled(fx[1..])
  }

  lemma {:induction false} SettledAppend(a: seq<Effect>, b: seq<Effect>)
    ensures Settled(a + b) == Settled(a) + Settled(b)
  {
    if |a| == 0 {
      assert a + b == b;
    } else {
      assert (a + b)[0] == a[0];
      assert (a + b)[1..] == a[1..] + b;
      SettledAppend(a[1..], b);
    }
  }

  /** The smallest id that can still be settled: the current one, or the next to be issued. */
  function Frontier(s: State): nat {
    if s.current.Some? then s.current.value else s.counter + 1
  }

  /** One step settles at most the current caller, and never moves the frontier back past it. */
  lemma StepSettles(s: State, e: Event)
    requires Inv(s)
    ensures var (s1, fx) := Step(s, e);
      && Frontier(s) <= Frontier(s1)
      && (Settled(fx) == [] || (Settled(fx) == [Frontier(s)] && s.current.Some? && Frontier(s) < Frontier(s1)))
  {
    var (s1, fx) := Step(s, e);
    assert fx == [] || |fx| == 1;
    if |fx| == 1 {
      assert Settled(fx) == Settled([fx[0]]);
    }
  }

  predicate Increasing(xs: seq<nat>) {
    forall i, j :: 0 <= i < j < |xs| ==> xs[i] < xs[j]
  }

  /**
   * Over any run, settled callers come in strictly increasing order, all at or past
   * the starting frontier: no caller is settled twice.
   */
  lemma {:induction false} RunSettlesIncreasing(s: State, es: seq<Event>)
    requires Inv(s)
    ensures Increasing(Settled(Run(s, es).1))
    ensures forall k :: 0 <= k < |Settled(Run(s, es).1)| ==> Frontier(s) <= Settled(Run(s, es).1)[k]
    decreases |es|
  {
    if |es| > 0 {
      var (s1, fx1) := Step(s, es[0]);
      var (s2, fx2) := Run(s1, es[1..]);
      StepSettles(s, es[0]);
      RunSettlesIncreasing(s1, es[1..]);
      SettledAppend(fx1, fx2);
      assert Run(s, es).1 == fx1 + fx2;
    }
  }

  /**
   * A caller superseded by a newer call is never settled afterwards: its promise
   * stays pending for good.
   */
  lemma SupersededNeverSettled(s: State, c: nat, es: seq<Event>)
    requires Inv(s) && s.pendingResolve == Some(c)
    ensures c !in Settled(Run(Step(s, Call).0, es).1)
  {
    var s1 := Step(s, Call).0;
    RunSettlesIncreasing(s1, es);
  }

  /** Any run from a state satisfying the invariant ends in one that satisfies it. */
  lemma {:induction false} RunKeepsInv(s: State, es: seq<Event>)
    requires Inv(s)
    ensures Inv(Run(s, es).0)
    decreases |es|
  {
    if |es| > 0 {
      RunKeepsInv(Step(s, es[0]).0, es[1..]);
    }
  }

  /** The module's starting state (no worker, no pending request) satisfies the invariant. */
  lemma InitialInv()
    ensures Inv(Initial)
  {
  }

  /** Every state reachable from the start satisfies the invariant. */
  lemma ReachableInv(es: seq<Event>)
    ensures Inv(Run(Initial, es).0)
  {
    RunKeepsInv(Initial, es);
  }
}
