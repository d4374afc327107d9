// The manager's loop waiting for a worker whose processConfig may never return.
module ManagerWorker {
  import opened Sequences
  import opened ManagerProtocol
  import opened ManagerSafety
  import opened ManagerTheorems
  import opened EngineLifecycle
  import opened ProcessConfig

  // The loop has cancelled its worker and waits for the mutex, processConfig still running.
  ghost predicate WaitsForProcessing(s: State) {
    s.pc.Waiting? && s.workers != [] && s.workers[0].pc.Processing?
  }

  // A continuation in which processConfig returns only if it does at all. The first
  // step of a worker is that return.
  ghost predicate Allowed(more: seq<Action>, returned: bool) {
    returned || forall i :: 0 <= i < |more| ==> !more[i].WorkerStep?
  }

  // Until then the loop stays where it is: nothing is published or torn down, whatever is sent.
  ghost predicate Held(s: State, end: State) {
    && end.pc == s.pc && end.workers == s.workers && end.locked == s.locked && end.open == s.open
    && end.applied == s.applied && end.published == s.published && end.attempts == s.attempts
    && s.queue <= end.queue
  }

  lemma {:induction false} StillWaiting(acts: seq<Action>, more: seq<Action>)
    requires Exec(acts).Some? && WaitsForProcessing(Exec(acts).value)
    requires Allowed(more, false) && Exec(acts + more).Some?
    ensures Held(Exec(acts).value, Exec(acts + more).value)
  {
    if more == [] {
      assert acts + more == acts;
    } else {
      var init := more[..|more| - 1];
      assert (acts + more)[..|acts + more| - 1] == acts + init && Last(acts + more) == Last(more);
      StillWaiting(acts, init);
      Reachable(acts + init);
      HeldNext(Exec(acts).value, Exec(acts + init).value, Last(more));
    }
  }

  lemma HeldNext(s: State, t: State, a: Action)
    requires Inv(t) && WaitsForProcessing(s) && Held(s, t) && Enabled(t, a) && !a.WorkerStep?
    ensures Held(s, Apply(t, a))
  {
  }

  ghost predicate GetsMutex(acts: seq<Action>, more: seq<Action>) {
    Exec(acts + more).Some? && Exec(acts + more).value.pc.Draining?
  }

  // It gets the mutex, and with it comes to apply a newer configuration, exactly if
  // processConfig returns.
  lemma GetsMutexIff(acts: seq<Action>, returned: bool)
    requires Exec(acts).Some? && WaitsForProcessing(Exec(acts).value)
    ensures (exists more :: Allowed(more, returned) && GetsMutex(acts, more)) <==> returned
  {
    if returned {
      var more := ReturnFrees(acts);
    } else {
      forall more | Allowed(more, returned) && Exec(acts + more).Some? ensures !GetsMutex(acts, more) {
        StillWaiting(acts, more);
      }
    }
  }

  lemma ReturnFrees(acts: seq<Action>) returns (more: seq<Action>)
    requires Exec(acts).Some? && WaitsForProcessing(Exec(acts).value)
    ensures GetsMutex(acts, more)
  {
    var steps := seq(Remaining(Exec(acts).value.workers[0].pc), _ => WorkerStep(0));
    TeardownReleases(acts);
    Reachable(acts + steps);
    LocksNext(acts + steps);
    more := steps + [Lock];
    assert acts + steps + [Lock] == acts + more;
  }

  lemma LocksNext(acts: seq<Action>)
    requires Exec(acts).Some? && Exec(acts).value.pc.Waiting? && !Exec(acts).value.locked && !Exec(acts).value.faulted
    ensures GetsMutex(acts, [Lock])
  {
    ExecSnoc(acts, Lock);
  }

  // For a worker that repeats its last specification and was cancelled outside a
  // select, this is so exactly if some later Start slips through.
  lemma NewerAppliedIff(acts: seq<Action>, run: seq<Execution>, consumers: bool, specs: seq<Spec>,
                        env: seq<Answers>, c: nat)
    requires Exec(acts).Some? && WaitsForProcessing(Exec(acts).value)
    requires Mirrors(run, consumers, specs, env) && specs != []
    requires c <= |env| && DoneFrom(env, c) && NoneEnds(run, c)
    ensures (exists more :: Allowed(more, Returns(run, |specs|, true)) && GetsMutex(acts, more))
            <==> exists i :: c <= i < |env| && SlipsThrough(consumers, Planned(specs, i), env[i])
  {
    GetsMutexIff(acts, Returns(run, |specs|, true));
    CancelledReturnsIff(run, consumers, specs, env, c);
  }

  const WAITING := UP_TO_STORAGE + [CreateStorage(true)] + [PublishCollector] + [Spawn]
    + [Send(8)] + [Receive] + [CancelPrevious]

  // The loop does come to wait so: configuration 7 is running, 8 is held.
  lemma NewerWaits()
    ensures Exec(WAITING).Some? && WaitsForProcessing(Exec(WAITING).value) && Exec(WAITING).value.pc == Waiting(8)
  {
    RunToStorage();
    var acts := Then(UP_TO_STORAGE, CreateStorage(true));
    acts := Then(acts, PublishCollector);
    acts := Then(acts, Spawn);
    acts := Then(acts, Send(8));
    acts := Then(acts, Receive);
    acts := Then(acts, CancelPrevious);
  }

  // At a validated specification: with its context done before its first Start sets
  // anything up, the worker keeps the newer configuration waiting in every continuation.
  lemma NewerNeverApplied(acts: seq<Action>, more: seq<Action>, run: seq<Execution>, consumers: bool, env: seq<Answers>)
    requires Exec(acts).Some? && WaitsForProcessing(Exec(acts).value)
    requires Mirrors(run, consumers, [SMALL_SPEC], env) && DoneFrom(env, 0)
    requires Allowed(more, Returns(run, 1, true)) && Exec(acts + more).Some?
    ensures Held(Exec(acts).value, Exec(acts + more).value)
  {
    CancelledWhileStarting(run, consumers, env);
    StillWaiting(acts, more);
  }
}
