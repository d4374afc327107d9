// One worker's run over the specifications of a configuration: each in order,
// then, if the policy says so, the last one again and again, scaled each time.
module ProcessConfig {
  import opened Sequences
  import opened Scaling
  import opened LoadTestSpecs
  import opened FanOut
  import opened Setup
  import opened EngineLifecycle

  // What one execution of a specification meets: the answers to Start, whether
  // the context's Done arm is taken before the duration is over, and what the
  // Stop that follows finds.
  datatype Answers = Answers(start: StartAnswers, cancelled: bool, connected: bool, taskFailed: bool)

  // The specification of the i-th engine.Start.
  function Planned(specs: seq<Spec>, i: nat): Spec
    requires specs != []
  {
    if i < |specs| then specs[i] else Last(specs).(scaled := Last(specs).scaled + i - |specs| + 1)
  }

  // How far an engine.Start gets: not to its errgroup, not all the way from there, or
  // all the way.
  datatype Reach = FailedEarly | FailedLate | Succeeded

  // One execution of a specification. connected is what its clean-up, if it comes to
  // one, is told by IsConnected.
  datatype Execution = Execution(spec: Spec, reach: Reach, cancelled: bool, connected: bool)

  ghost function ExecutionOf(consumers: bool, spec: Spec, a: Answers): Execution {
    if Succeeds(consumers, spec, a.start) then Execution(spec, Succeeded, a.cancelled, a.connected)
    else if ReachesSetup(spec, a.start) then Execution(spec, FailedLate, a.cancelled, a.start.connected)
    else Execution(spec, FailedEarly, a.cancelled, false)
  }

  ghost function Executions(consumers: bool, specs: seq<Spec>, env: seq<Answers>): seq<Execution> {
    if specs == [] then [] else
    seq(|env|, i requires 0 <= i < |env| => ExecutionOf(consumers, Planned(specs, i), env[i]))
  }

  ghost predicate Mirrors(run: seq<Execution>, consumers: bool, specs: seq<Spec>, env: seq<Answers>) {
    && |run| == (if specs == [] then 0 else |env|)
    && forall i :: 0 <= i < |run| ==> MirrorsAt(run, consumers, specs, env, i)
  }

  ghost predicate MirrorsAt(run: seq<Execution>, consumers: bool, specs: seq<Spec>, env: seq<Answers>, i: nat)
    requires i < |run| == |env| && specs != []
  {
    run[i] == ExecutionOf(consumers, Planned(specs, i), env[i])
  }

  lemma ExecutionsMirror(consumers: bool, specs: seq<Spec>, env: seq<Answers>)
    ensures Mirrors(Executions(consumers, specs, env), consumers, specs, env)
  {
  }

  // The Done arm is only looked at once Start has succeeded.
  predicate EndsRun(e: Execution) {
    e.reach.Succeeded? && e.cancelled
  }

  // A connection is made that its clean-up finds disconnected.
  predicate Loses(e: Execution) {
    !e.reach.FailedEarly? && !e.connected
  }

  function CallsOf(e: Execution): seq<Call> {
    if !e.reach.Succeeded? then [FailedStart(e.spec)]
    else if e.cancelled then [Started(e.spec)]
    else [Started(e.spec), Stopped]
  }

  // The engine calls of the first k executions.
  function Script(run: seq<Execution>, k: nat): seq<Call>
    requires k <= |run|
  {
    if k == 0 then [] else Script(run, k - 1) + CallsOf(run[k - 1])
  }

  // Whether the engine runs after these calls; None if some Start was called
  // while it was running.
  function RunningAfter(calls: seq<Call>): Option<bool> {
    if calls == [] then Some(false) else
    var before := RunningAfter(calls[..|calls| - 1]);
    if before.None? then None else RunningNext(before.value, Last(calls))
  }

  function RunningNext(running: bool, c: Call): Option<bool> {
    match c
    case Stopped => Some(false)
    case Started(_) => if running then None else Some(true)
    case FailedStart(_) => if running then None else Some(false)
  }

  function SpecsStarted(calls: seq<Call>): seq<Spec> {
    if calls == [] then [] else
    var before := SpecsStarted(calls[..|calls| - 1]);
    if Last(calls).Stopped? then before else before + [Last(calls).spec]
  }

  lemma CallSnoc(calls: seq<Call>, c: Call)
    ensures RunningAfter(calls + [c]) ==
            var before := RunningAfter(calls);
            if before.None? then None else RunningNext(before.value, c)
    ensures SpecsStarted(calls + [c]) == if c.Stopped? then SpecsStarted(calls) else SpecsStarted(calls) + [c.spec]
  {
    assert (calls + [c])[..|calls|] == calls;
  }

  lemma CallsOfSnoc(before: seq<Call>, e: Execution)
    requires RunningAfter(before) == Some(false)
    ensures RunningAfter(before + CallsOf(e)) == Some(EndsRun(e))
    ensures SpecsStarted(before + CallsOf(e)) == SpecsStarted(before) + [e.spec]
  {
    if !e.reach.Succeeded? {
      CallSnoc(before, FailedStart(e.spec));
    } else if e.cancelled {
      CallSnoc(before, Started(e.spec));
    } else {
      CallSnoc(before, Started(e.spec));
      CallSnoc(before + [Started(e.spec)], Stopped);
      assert before + [Started(e.spec), Stopped] == before + [Started(e.spec)] + [Stopped];
    }
  }

  predicate NoneEnds(run: seq<Execution>, k: int)
    requires k <= |run|
  {
    forall i :: 0 <= i < k ==> !EndsRun(run[i])
  }

  predicate NoneLoses(run: seq<Execution>, k: int)
    requires k <= |run|
  {
    forall i :: 0 <= i < k ==> !Loses(run[i])
  }

  // These calls have started k specifications, in the order of the list, none of them
  // while an earlier one was unstopped.
  ghost predicate Follow(calls: seq<Call>, specs: seq<Spec>, k: nat, running: bool) {
    RunningAfter(calls) == Some(running) && |SpecsStarted(calls)| == k && InListOrder(SpecsStarted(calls), specs)
  }

  // ... and so have the calls made since there were those of before.
  ghost predicate Made(before: seq<Call>, calls: seq<Call>, specs: seq<Spec>, k: nat, running: bool) {
    before <= calls && Follow(calls[|before|..], specs, k, running)
  }

  // The specifications of the list one after the other, and then only the last, scaled
  // once more each time.
  ghost predicate InListOrder(started: seq<Spec>, specs: seq<Spec>) {
    && (forall i {:trigger started[i]} :: 0 <= i < |started| && i < |specs| ==> started[i] == specs[i])
    && (forall i :: |specs| <= i < |started| ==>
          specs != [] && started[i] == Last(specs).(scaled := Last(specs).scaled + (i - |specs| + 1)))
  }

  // As long as no execution but the last is cancelled, no Start comes while an
  // earlier one is unstopped, and the specifications are started in list order,
  // after which only the last repeats, scaled once more each time.
  lemma StartsInOrderAndAlone(run: seq<Execution>, consumers: bool, specs: seq<Spec>, env: seq<Answers>, k: nat)
    requires Mirrors(run, consumers, specs, env) && k <= |run| && NoneEnds(run, k - 1)
    ensures Follow(Script(run, k), specs, k, k > 0 && EndsRun(run[k - 1]))
  {
    ScriptFollows(run, k);
    forall i | 0 <= i < k ensures run[i].spec == Planned(specs, i) {
      assert MirrorsAt(run, consumers, specs, env, i);
    }
  }

  // What the calls of the first k executions come to.
  ghost predicate Traced(calls: seq<Call>, run: seq<Execution>, k: nat)
    requires k <= |run|
  {
    && RunningAfter(calls) == Some(k > 0 && EndsRun(run[k - 1]))
    && |SpecsStarted(calls)| == k
    && forall i :: 0 <= i < k ==> SpecsStarted(calls)[i] == run[i].spec
  }

  lemma {:induction false} ScriptFollows(run: seq<Execution>, k: nat)
    requires k <= |run| && NoneEnds(run, k - 1)
    ensures Traced(Script(run, k), run, k)
  {
    if k > 0 {
      ScriptFollows(run, k - 1);
      TracedNext(Script(run, k - 1), run, k - 1);
    }
  }

  lemma TracedNext(calls: seq<Call>, run: seq<Execution>, k: nat)
    requires k < |run| && NoneEnds(run, k) && Traced(calls, run, k)
    ensures Traced(calls + CallsOf(run[k]), run, k + 1)
  {
    assert k > 0 ==> !EndsRun(run[k - 1]);
    CallsOfSnoc(calls, run[k]);
  }

  // Between executions the engine holds no open connection, ...
  ghost predicate Unconnected(v: Snapshot) {
    v.natsConn.Some? ==> v.natsConn.value !in v.world.open
  }

  // ... and its group, if it has had one, has been waited for.
  ghost predicate NothingPending(v: Snapshot) {
    v.errGroup.Some? ==> v.errGroup.value in v.world.waited
  }

  ghost predicate Numbered(v: Snapshot) {
    && (forall c :: c in v.world.open ==> c < v.world.dialed)
    && (forall g :: g in v.world.waited ==> g < v.world.groups)
    && (v.errGroup.Some? ==> v.errGroup.value < v.world.groups)
  }

  // What one execution makes of the engine.
  ghost predicate Executed(v: Snapshot, e: Execution, v': Snapshot) {
    && v'.calls == v.calls + CallsOf(e)
    && v'.world.dialed >= v.world.dialed
    && GroupsAfter(v, e, v')
    && (if EndsRun(e)
        then v'.natsConn == Some(v.world.dialed) && v'.world.open == v.world.open + {v.world.dialed}
             && v'.world.dialed > v.world.dialed
        else Unconnected(v')
             && v'.world.open == v.world.open + (if Loses(e) then {v.world.dialed} else {}))
  }

  ghost predicate GroupsAfter(v: Snapshot, e: Execution, v': Snapshot) {
    && v'.world.groups == v.world.groups + (if e.reach.FailedEarly? then 0 else 1)
    && v'.errGroup == (if e.reach.FailedEarly? then v.errGroup else Some(v.world.groups))
    && v'.world.waited.Keys ==
         v.world.waited.Keys + (if e.reach.Succeeded? && !e.cancelled then {v.world.groups} else {})
  }

  // processLoadTestSpec
  method RunSpec(engine: Engine, spec: Spec, a: Answers) returns (done: bool)
    requires engine.Valid() && Unconnected(engine.Now())
    modifies engine
    ensures engine.Valid() && done == EndsRun(ExecutionOf(engine.enableConsumers, spec, a))
    ensures Executed(old(engine.Now()), ExecutionOf(engine.enableConsumers, spec, a), engine.Now())
  {
    var ok := engine.Start(spec, a.start);
    if !ok {
      return false;
    }
    if a.cancelled {
      return true;
    }
    var _ := engine.Stop(a.connected, a.taskFailed);
    return false;
  }

  // The current group is left without being waited for: its Start failed after the
  // set-up, or its execution was cancelled, and Stop has not been called since.
  predicate Pending(run: seq<Execution>, k: nat)
    requires k <= |run|
  {
    if k == 0 then false
    else if run[k - 1].reach.FailedEarly? then Pending(run, k - 1)
    else run[k - 1].reach.FailedLate? || run[k - 1].cancelled
  }

  // No group takes the place of a pending one.
  predicate NonePassed(run: seq<Execution>, k: nat)
    requires k <= |run|
  {
    forall j: nat :: j < k && !run[j].reach.FailedEarly? ==> !Pending(run, j)
  }

  // The groups created since there were `first`, after k executions.
  ghost predicate Tracked(v: Snapshot, run: seq<Execution>, k: nat, first: nat)
    requires k <= |run|
  {
    && first <= v.world.groups
    && (Pending(run, k) ==>
          v.errGroup.Some? && first <= v.errGroup.value && v.errGroup.value !in v.world.waited)
    && (!Pending(run, k) ==> NothingPending(v))
    && (NonePassed(run, k) <==> OthersWaited(v, first))
  }

  ghost predicate OthersWaited(v: Snapshot, first: nat) {
    forall g: nat :: first <= g < v.world.groups && v.errGroup != Some(g) ==> g in v.world.waited
  }

  lemma TrackedNext(v: Snapshot, v': Snapshot, run: seq<Execution>, k: nat, first: nat)
    requires k < |run| && Numbered(v) && Tracked(v, run, k, first) && GroupsAfter(v, run[k], v')
    ensures Tracked(v', run, k + 1, first)
  {
    if !run[k].reach.FailedEarly? {
      if Pending(run, k) {
        assert v.errGroup.value < v'.world.groups && v'.errGroup != v.errGroup;
        assert v.errGroup.value !in v'.world.waited;
      } else {
        assert forall g: nat :: first <= g < v'.world.groups && v'.errGroup != Some(g) ==> first <= g < v.world.groups;
      }
    }
  }

  // The engine after k executions, none of which ended the run.
  ghost predicate Between(v: Snapshot, run: seq<Execution>, k: nat, before: Snapshot)
    requires k <= |run|
  {
    && Numbered(v) && Unconnected(v) && NoneEnds(run, k)
    && v.calls == before.calls + Script(run, k)
    && before.world.open <= v.world.open && before.world.dialed <= v.world.dialed
    && (v.world.open == before.world.open <==> NoneLoses(run, k))
    && Tracked(v, run, k, before.world.groups)
  }

  // The engine after k executions, the last of which was cancelled and left it
  // running: its one connection that is still open is the current one.
  ghost predicate Interrupted(v: Snapshot, run: seq<Execution>, k: nat, before: Snapshot)
    requires k <= |run|
  {
    && Numbered(v) && k > 0 && NoneEnds(run, k - 1) && EndsRun(run[k - 1])
    && v.calls == before.calls + Script(run, k)
    && v.natsConn.Some? && v.natsConn.value in v.world.open && v.natsConn.value !in before.world.open
    && before.world.open <= v.world.open
    && ((v.world.open - {v.natsConn.value} == before.world.open) <==> NoneLoses(run, k - 1))
    && Tracked(v, run, k, before.world.groups)
  }

  ghost predicate Reached(v: Snapshot, run: seq<Execution>, k: nat, before: Snapshot, done: bool)
    requires k <= |run|
  {
    if done then Interrupted(v, run, k, before) else Between(v, run, k, before)
  }

  lemma ReachedNext(v: Snapshot, v': Snapshot, run: seq<Execution>, k: nat, before: Snapshot)
    requires k < |run| && Between(v, run, k, before) && Numbered(before) && Numbered(v')
    requires Executed(v, run[k], v')
    ensures Reached(v', run, k + 1, before, EndsRun(run[k]))
  {
    TrackedNext(v, v', run, k, before.world.groups);
    OpenNext(v, v', run, k, before);
  }

  // The connections left open, with or without the current one.
  lemma OpenNext(v: Snapshot, v': Snapshot, run: seq<Execution>, k: nat, before: Snapshot)
    requires k < |run| && Between(v, run, k, before) && Numbered(before) && Executed(v, run[k], v')
    ensures if EndsRun(run[k])
            then v'.natsConn.value !in before.world.open
              && ((v'.world.open - {v'.natsConn.value} == before.world.open) <==> NoneLoses(run, k))
            else (v'.world.open == before.world.open) <==> NoneLoses(run, k + 1)
  {
    var nc := v.world.dialed;
    assert nc !in v.world.open && nc !in before.world.open;
    assert v.world.open + {nc} - {nc} == v.world.open;
    assert NoneLoses(run, k + 1) <==> NoneLoses(run, k) && !Loses(run[k]);
  }

  method RunNext(engine: Engine, specs: seq<Spec>, spec: Spec, env: seq<Answers>, ghost run: seq<Execution>, k: nat,
                 ghost before: Snapshot) returns (done: bool)
    requires Mirrors(run, engine.enableConsumers, specs, env) && k < |run| && spec == Planned(specs, k)
    requires engine.Valid() && Between(engine.Now(), run, k, before) && Numbered(before)
    modifies engine
    ensures engine.Valid() && Reached(engine.Now(), run, k + 1, before, done)
  {
    ghost var v := engine.Now();
    assert MirrorsAt(run, engine.enableConsumers, specs, env, k);
    done := RunSpec(engine, spec, env[k]);
    ReachedNext(v, engine.Now(), run, k, before);
  }

  lemma NothingYet(v: Snapshot, run: seq<Execution>)
    requires Numbered(v) && Unconnected(v) && NothingPending(v)
    ensures Between(v, run, 0, v)
  {
  }

  // The first loop: the specifications in order. It is done when cancelled; otherwise
  // it has been through the list or through all that has been observed.
  method RunList(engine: Engine, specs: seq<Spec>, env: seq<Answers>, ghost run: seq<Execution>)
    returns (done: bool, used: nat)
    requires Mirrors(run, engine.enableConsumers, specs, env)
    requires engine.Valid() && Unconnected(engine.Now()) && NothingPending(engine.Now())
    modifies engine
    ensures engine.Valid() && used <= |run| && used <= |specs|
    ensures Reached(engine.Now(), run, used, old(engine.Now()), done)
    ensures !done ==> used == |specs| || used == |env|
  {
    ghost var before := engine.Now();
    NothingYet(before, run);
    used, done := 0, false;
    while used < |specs| && used < |env| && !done
      invariant engine.Valid() && used <= |specs| && used <= |run|
      invariant Reached(engine.Now(), run, used, before, done)
      decreases |specs| - used
    {
      done := RunNext(engine, specs, specs[used], env, run, used, before);
      used := used + 1;
    }
  }

  // lastLoadTest is what the k-th execution scales and then starts.
  ghost predicate NextToScale(specs: seq<Spec>, k: nat, lastLoadTest: Spec) {
    specs != [] && k >= |specs| && lastLoadTest == Last(specs).(scaled := Last(specs).scaled + k - |specs|)
  }

  lemma ScaledIsPlanned(specs: seq<Spec>, k: nat, lastLoadTest: Spec)
    requires NextToScale(specs, k, lastLoadTest)
    ensures var next := ScaledOnce(lastLoadTest); next == Planned(specs, k) && NextToScale(specs, k + 1, next)
  {
  }

  function ScaledOnce(spec: Spec): Spec {
    spec.(scaled := spec.scaled + 1)
  }

  // One turn of the second loop.
  method RunRepeat(engine: Engine, specs: seq<Spec>, last: Spec, env: seq<Answers>, ghost run: seq<Execution>, k: nat,
                   ghost before: Snapshot) returns (done: bool, lastLoadTest: Spec)
    requires Mirrors(run, engine.enableConsumers, specs, env) && k < |run| && NextToScale(specs, k, last)
    requires engine.Valid() && Between(engine.Now(), run, k, before) && Numbered(before)
    modifies engine
    ensures engine.Valid() && Reached(engine.Now(), run, k + 1, before, done)
    ensures NextToScale(specs, k + 1, lastLoadTest)
  {
    lastLoadTest := ScaledOnce(last);  // ApplyMultipliers
    ScaledIsPlanned(specs, k, last);
    done := RunNext(engine, specs, lastLoadTest, env, run, k, before);
  }

  // The second loop: the last specification, scaled once more each time.
  method RunRepeats(engine: Engine, specs: seq<Spec>, env: seq<Answers>, ghost run: seq<Execution>,
                    ghost before: Snapshot) returns (done: bool, used: nat)
    requires specs != [] && |specs| <= |env| && Numbered(before)
    requires Mirrors(run, engine.enableConsumers, specs, env)
    requires engine.Valid() && Between(engine.Now(), run, |specs|, before)
    modifies engine
    ensures engine.Valid() && |specs| <= used <= |run|
    ensures Reached(engine.Now(), run, used, before, done)
    ensures !done ==> used == |env|
  {
    var lastLoadTest := specs[|specs| - 1];
    used, done := |specs|, false;
    while used < |env| && !done
      invariant engine.Valid() && |specs| <= used <= |run| && NextToScale(specs, used, lastLoadTest)
      invariant Reached(engine.Now(), run, used, before, done)
      decreases |env| - used
    {
      done, lastLoadTest := RunRepeat(engine, specs, lastLoadTest, env, run, used, before);
      used := used + 1;
    }
  }

  // Exactly when a run over what has been observed returns: an execution is
  // cancelled after a successful Start, or the list ends and does not repeat.
  predicate Returns(run: seq<Execution>, listed: nat, repeatEnabled: bool) {
    || listed == 0 || (!repeatEnabled && listed <= |run|)
    || exists i :: 0 <= i < |run| && (i < listed || repeatEnabled) && EndsRun(run[i])
  }

  // env is as much of the outside world as has been observed: the repeat loop has
  // no other bound, so each longer env describes a longer part of the same run.
  method Run(engine: Engine, specs: seq<Spec>, repeatEnabled: bool, env: seq<Answers>, ghost run: seq<Execution>)
    returns (returned: bool, ghost done: bool, used: nat)
    requires Mirrors(run, engine.enableConsumers, specs, env)
    requires engine.Valid() && Unconnected(engine.Now()) && NothingPending(engine.Now())
    modifies engine
    ensures engine.Valid() && used <= |run|
    ensures Reached(engine.Now(), run, used, old(engine.Now()), done)
    // The specifications are started in the order of the list, one after the other.
    ensures Made(old(engine.calls), engine.calls, specs, used, done)
    ensures returned <==> Returns(run, |specs|, repeatEnabled)
    ensures done ==> returned && EndsRun(run[used - 1])
    ensures !done && (!returned || (repeatEnabled && specs != [])) ==> !returned && used == |env|
  {
    ghost var before := engine.Now();
    returned, done, used := RunLoops(engine, specs, repeatEnabled, env, run);
    CallsFollow(engine.Now(), before, run, engine.enableConsumers, specs, env, used, done);
  }

  // The two loops.
  method RunLoops(engine: Engine, specs: seq<Spec>, repeatEnabled: bool, env: seq<Answers>, ghost run: seq<Execution>)
    returns (returned: bool, ghost done: bool, used: nat)
    requires Mirrors(run, engine.enableConsumers, specs, env)
    requires engine.Valid() && Unconnected(engine.Now()) && NothingPending(engine.Now())
    modifies engine
    ensures engine.Valid() && used <= |run|
    ensures Reached(engine.Now(), run, used, old(engine.Now()), done)
    ensures returned <==> Returns(run, |specs|, repeatEnabled)
    ensures done ==> returned && EndsRun(run[used - 1])
    ensures !done && (!returned || (repeatEnabled && specs != [])) ==> !returned && used == |env|
  {
    ghost var before := engine.Now();
    var cancelled;
    cancelled, used := RunList(engine, specs, env, run);
    done := cancelled;
    if cancelled {
      return true, done, used;
    }
    if used < |specs| {
      return false, done, used;
    }
    if repeatEnabled && |specs| > 0 {
      cancelled, used := RunRepeats(engine, specs, env, run, before);
      done := cancelled;
      return cancelled, done, used;
    }
    return true, done, used;
  }

  // The calls made since before.
  lemma CallsFollow(v: Snapshot, before: Snapshot, run: seq<Execution>, consumers: bool, specs: seq<Spec>,
                    env: seq<Answers>, k: nat, done: bool)
    requires Mirrors(run, consumers, specs, env) && k <= |run| && Reached(v, run, k, before, done)
    ensures Made(before.calls, v.calls, specs, k, done)
  {
    assert v.calls[|before.calls|..] == Script(run, k);
    StartsInOrderAndAlone(run, consumers, specs, env, k);
    assert k > 0 && !done ==> !EndsRun(run[k - 1]);
  }

  // What the deferred Stop leaves.
  lemma StopSettles(v: Snapshot, v': Snapshot, run: seq<Execution>, k: nat, before: Snapshot, done: bool,
                    connected: bool)
    requires k <= |run| && Reached(v, run, k, before, done)
    requires done ==> connected == run[k - 1].connected
    requires v'.world.groups == v.world.groups
    requires v'.world.open ==
      if v.natsConn.Some? && connected then v.world.open - {v.natsConn.value} else v.world.open
    requires v'.world.waited.Keys ==
      v.world.waited.Keys + (if v.errGroup.Some? then {v.errGroup.value} else {})
    ensures v'.world.open == before.world.open <==> NoneLoses(run, k)
    ensures AllWaited(v'.world, before.world.groups) <==> NonePassed(run, k)
  {
    OpenAtTheEnd(v, v', run, k, before, done, connected);
    assert NonePassed(run, k) <==> OthersWaited(v, before.world.groups);
    if AllWaited(v'.world, before.world.groups) {
      forall g: nat | before.world.groups <= g < v.world.groups && v.errGroup != Some(g) ensures g in v.world.waited {
        assert g in v'.world.waited.Keys;
      }
    }
  }

  lemma OpenAtTheEnd(v: Snapshot, v': Snapshot, run: seq<Execution>, k: nat, before: Snapshot, done: bool,
                     connected: bool)
    requires k <= |run| && Reached(v, run, k, before, done)
    requires done ==> connected == run[k - 1].connected
    requires v'.world.open ==
      if v.natsConn.Some? && connected then v.world.open - {v.natsConn.value} else v.world.open
    ensures v'.world.open == before.world.open <==> NoneLoses(run, k)
  {
    if done {
      var nc := v.natsConn.value;
      assert NoneLoses(run, k) <==> NoneLoses(run, k - 1) && !Loses(run[k - 1]);
      assert Loses(run[k - 1]) <==> !connected;
      assert nc in v.world.open && nc !in before.world.open;
    } else {
      assert v.natsConn.Some? ==> v.world.open - {v.natsConn.value} == v.world.open;
    }
  }

  ghost predicate AllWaited(w: World, first: nat) {
    forall g: nat :: first <= g < w.groups ==> g in w.waited
  }

  lemma EndsConnected(run: seq<Execution>, consumers: bool, specs: seq<Spec>, env: seq<Answers>, k: nat)
    requires Mirrors(run, consumers, specs, env) && k < |run| && EndsRun(run[k])
    ensures run[k].connected == env[k].connected
  {
    assert MirrorsAt(run, consumers, specs, env, k);
  }

  lemma StoppedFollow(calls: seq<Call>, before: seq<Call>, specs: seq<Spec>, k: nat, running: bool)
    requires Made(before, calls, specs, k, running)
    ensures Made(before, calls + [Stopped], specs, k, false)
  {
    CallSnoc(calls[|before|..], Stopped);
    assert (calls + [Stopped])[|before|..] == calls[|before|..] + [Stopped];
  }

  // The worker goroutine: processConfig and then the deferred engine.Stop. The
  // engine ends cleared, stopped after its last Start, with no connection left open
  // exactly when every clean-up found its connection connected, and every group waited
  // for exactly unless one is passed over.
  method RunWorker(engine: Engine, specs: seq<Spec>, repeatEnabled: bool, env: seq<Answers>, ghost run: seq<Execution>)
    returns (returned: bool, used: nat)
    requires Mirrors(run, engine.enableConsumers, specs, env)
    requires engine.Valid() && Unconnected(engine.Now()) && NothingPending(engine.Now())
    modifies engine
    ensures engine.Valid() && used <= |run| && NoneEnds(run, used - 1)
    ensures returned <==> Returns(run, |specs|, repeatEnabled)
    ensures Made(old(engine.calls), engine.calls, specs, used, false)
    ensures !returned ==> used == |env| && NoneEnds(run, used)
    ensures returned && repeatEnabled && specs != [] ==> used > 0 && EndsRun(run[used - 1])
    ensures returned ==>
      && engine.Cleared()
      && engine.calls == old(engine.calls) + Script(run, used) + [Stopped]
      && (engine.world.open == old(engine.world.open) <==> NoneLoses(run, used))
      && (AllWaited(engine.world, old(engine.world.groups)) <==> NonePassed(run, used))
  {
    ghost var before := engine.Now();
    ghost var done;
    returned, done, used := Run(engine, specs, repeatEnabled, env, run);
    if returned {
      StopAtEnd(engine, specs, env, run, used, before, done);
    }
  }

  // The deferred Stop.
  method StopAtEnd(engine: Engine, ghost specs: seq<Spec>, env: seq<Answers>, ghost run: seq<Execution>, used: nat,
                   ghost before: Snapshot, ghost done: bool)
    requires Mirrors(run, engine.enableConsumers, specs, env) && used <= |run|
    requires engine.Valid() && Reached(engine.Now(), run, used, before, done)
    requires Made(before.calls, engine.calls, specs, used, done)
    modifies engine
    ensures engine.Valid() && engine.Cleared()
    ensures engine.calls == old(engine.calls) + [Stopped] && Made(before.calls, engine.calls, specs, used, false)
    ensures engine.world.open == before.world.open <==> NoneLoses(run, used)
    ensures AllWaited(engine.world, before.world.groups) <==> NonePassed(run, used)
  {
    ghost var v := engine.Now();
    var connected := used > 0 && env[used - 1].connected;
    var _ := engine.Stop(connected, used > 0 && env[used - 1].taskFailed);
    StoppedFollow(v.calls, before.calls, specs, used, done);
    if done {
      EndsConnected(run, engine.enableConsumers, specs, env, used - 1);
    }
    StopSettles(v, engine.Now(), run, used, before, done, connected);
  }

  // --- Cancellation ---

  // From the c-th execution on, the context is done before Start.
  ghost predicate DoneFrom(env: seq<Answers>, c: nat) {
    forall i :: c <= i < |env| ==> BegunDone(env[i].start)
  }

  // The Done arm is taken of an execution with no stream to set up and no consumer to start.
  predicate SlipsThrough(consumers: bool, spec: Spec, a: Answers) {
    ReachesSetup(spec, a.start) && NothingToStart(consumers, spec) && a.cancelled
  }

  // With repetition on, a worker whose context is done outside the select of an
  // execution, say while Start is setting up, returns exactly if some later Start
  // connects, has no stream to set up and no consumer to start, and then takes the
  // Done arm, which is ready, and not the timer's if that is ready too.
  lemma CancelledReturnsIff(run: seq<Execution>, consumers: bool, specs: seq<Spec>, env: seq<Answers>, c: nat)
    requires Mirrors(run, consumers, specs, env) && specs != [] && c <= |env| && DoneFrom(env, c) && NoneEnds(run, c)
    ensures Returns(run, |specs|, true) <==>
            exists i :: c <= i < |env| && SlipsThrough(consumers, Planned(specs, i), env[i])
  {
    forall i | c <= i < |env| ensures EndsRun(run[i]) <==> SlipsThrough(consumers, Planned(specs, i), env[i]) {
      assert MirrorsAt(run, consumers, specs, env, i);
      DoneEndsIff(consumers, Planned(specs, i), env[i]);
    }
    if i :| c <= i < |env| && SlipsThrough(consumers, Planned(specs, i), env[i]) {
      assert EndsRun(run[i]);
    }
  }

  lemma DoneEndsIff(consumers: bool, spec: Spec, a: Answers)
    requires BegunDone(a.start)
    ensures EndsRun(ExecutionOf(consumers, spec, a)) <==> SlipsThrough(consumers, spec, a)
  {
    DoneSucceedsIff(consumers, spec, a.start);
  }

  // So with validated specifications and JetStream or consumers it never does.
  lemma ValidatedNeverReturns(run: seq<Execution>, consumers: bool, specs: seq<Spec>, env: seq<Answers>, c: nat)
    requires Mirrors(run, consumers, specs, env) && specs != [] && c <= |env| && DoneFrom(env, c) && NoneEnds(run, c)
    requires forall i :: c <= i < |env| ==> NeedsSetup(consumers, Planned(specs, i))
    ensures !Returns(run, |specs|, true)
  {
    CancelledReturnsIff(run, consumers, specs, env, c);
    forall i | c <= i < |env| ensures !SlipsThrough(consumers, Planned(specs, i), env[i]) {
      assert NeedsSetup(consumers, Planned(specs, i));
      ValidatedHasBoth(Planned(specs, i));
    }
  }

  ghost predicate NeedsSetup(consumers: bool, spec: Spec) {
    Validated(spec) && (consumers || spec.useJetStream)
  }

  // contents are those of a run of repetitions.
  ghost predicate ScaledBy(spec: Spec, rp: RepeatPolicy) {
    forall k: nat :: ScaledByAt(spec, rp, k)
  }

  ghost predicate ScaledByAt(spec: Spec, rp: RepeatPolicy, k: nat) {
    Repeated(spec.contents(k), rp, spec.contents(k + 1))
  }

  // Every number settles, so no repetition stops being valid.
  ghost predicate KeepsValid(spec: Spec, rp: RepeatPolicy) {
    && ScaledBy(spec, rp) && ValidPolicy(rp)
    && Fits(spec.contents(spec.scaled)) && Settled(spec.contents(spec.scaled), rp)
  }

  // ... nor when the specification that repeats is validated and settles: then each
  // repetition of it is validated too.
  lemma SettledNeverReturns(run: seq<Execution>, consumers: bool, specs: seq<Spec>, rp: RepeatPolicy,
                            env: seq<Answers>, c: nat)
    requires Mirrors(run, consumers, specs, env) && specs != [] && |specs| <= c <= |env| && DoneFrom(env, c)
    requires NoneEnds(run, c)
    requires NeedsSetup(consumers, Last(specs)) && KeepsValid(Last(specs), rp)
    ensures !Returns(run, |specs|, true)
  {
    forall i | c <= i < |env| ensures NeedsSetup(consumers, Planned(specs, i)) {
      SettledNeedsSetup(consumers, specs, rp, i);
    }
    ValidatedNeverReturns(run, consumers, specs, env, c);
  }

  lemma SettledNeedsSetup(consumers: bool, specs: seq<Spec>, rp: RepeatPolicy, i: nat)
    requires specs != [] && |specs| <= i && NeedsSetup(consumers, Last(specs)) && KeepsValid(Last(specs), rp)
    ensures NeedsSetup(consumers, Planned(specs, i))
  {
    SettledIsValidated(Last(specs), rp, i - |specs| + 1);
    assert Planned(specs, i) == Last(specs).(scaled := Last(specs).scaled + (i - |specs| + 1));
  }

  lemma SettledIsValidated(spec: Spec, rp: RepeatPolicy, k: nat)
    requires Validated(spec) && KeepsValid(spec, rp)
    ensures Validated(spec.(scaled := spec.scaled + k))
  {
    var run := RunOf(spec, rp, k);
    RunStaysValidated(run, rp, k, spec.prefix);
  }

  lemma RunOf(spec: Spec, rp: RepeatPolicy, k: nat) returns (run: seq<Contents>)
    requires ScaledBy(spec, rp)
    ensures |run| == k + 1 && IsRun(run, rp)
    ensures run[0] == spec.contents(spec.scaled) && run[k] == spec.contents(spec.scaled + k)
  {
    run := seq(k + 1, i requires 0 <= i <= k => spec.contents(spec.scaled + i));
    forall i | 0 <= i < |run| - 1 ensures Repeated(run[i], rp, run[i + 1]) {
      assert ScaledByAt(spec, rp, spec.scaled + i);
    }
  }

  lemma RunStaysValidated(run: seq<Contents>, rp: RepeatPolicy, k: nat, prefix: string)
    requires k < |run| && IsRun(run, rp) && ValidatedContents(run[0], prefix)
    requires ValidPolicy(rp) && Fits(run[0]) && Settled(run[0], rp)
    ensures ValidatedContents(run[k], prefix)
  {
    SettledStaysValid(run, rp, k);
    PrefixStays(run[0], rp, run[k], prefix);
  }

  lemma PrefixStays(c: Contents, rp: RepeatPolicy, c': Contents, prefix: string)
    requires exists n :: 0 <= n < |c.streams| && Matches(c.streams[n], prefix)
    requires |c'.streams| == |c.streams|
    requires forall i :: 0 <= i < |c.streams| ==> StreamKept(c.streams[i], rp, c'.streams[i])
    ensures exists n :: 0 <= n < |c'.streams| && Matches(c'.streams[n], prefix)
  {
    var n :| 0 <= n < |c.streams| && Matches(c.streams[n], prefix);
    assert StreamKept(c.streams[n], rp, c'.streams[n]);
    assert Matches(c'.streams[n], prefix);
  }

  // One stream, one consumer, JetStream, and every multiplier 1.
  const SMALL := Contents(Numbers(60, 0, 30, 1, 0, 1, 1, 1, 1), [StreamSpec("s", 1, 1, 1, ["a.{}"])])

  const SMALL_SPEC := Spec("small", true, "s", 0, (k: nat) => SMALL)

  const ONES := RepeatPolicy(1.0, 1.0, 1.0, 1.0, 1.0, 1.0, 1.0, 1.0, 1.0, 1.0, 1.0, 1.0)

  lemma SmallKeepsValid()
    ensures KeepsValid(SMALL_SPEC, ONES)
  {
    OnesKeep([0, 1, 30, 60]);
    assert Settled(SMALL, ONES);
    forall k: nat ensures ScaledByAt(SMALL_SPEC, ONES, k) {
    }
  }

  lemma OnesKeep(values: seq<nat>)
    requires forall v :: v in values ==> v <= 60
    ensures forall v :: v in values ==> Scaled(v, 1.0) == v
  {
    forall v | v in values ensures Scaled(v, 1.0) == v {
      SmallIsExact(v);
      ScaledByOne(v);
    }
  }

  lemma SmallIsValidated(k: nat)
    ensures Validated(SMALL_SPEC.(scaled := k))
  {
    assert Matches(SMALL.streams[0], "s");
  }

  // With its context done before its first Start sets anything up, a worker with this
  // specification starts it again and again.
  lemma CancelledWhileStarting(run: seq<Execution>, consumers: bool, env: seq<Answers>)
    requires Mirrors(run, consumers, [SMALL_SPEC], env) && DoneFrom(env, 0)
    ensures Validated(SMALL_SPEC) && !Returns(run, 1, true)
    ensures Follow(Script(run, |env|), [SMALL_SPEC], |env|, false)
  {
    SmallIsValidated(0);
    forall i | 0 <= i < |env| ensures NeedsSetup(consumers, Planned([SMALL_SPEC], i)) {
      SmallIsValidated(i);
    }
    ValidatedNeverReturns(run, consumers, [SMALL_SPEC], env, 0);
    StartsInOrderAndAlone(run, consumers, [SMALL_SPEC], env, |env|);
  }

  // An engine that never connects keeps the worker going for as long as one looks,
  // cancelled or not: no number of failed attempts ends it.
  lemma FailuresNeverEnd(run: seq<Execution>, consumers: bool, specs: seq<Spec>, env: seq<Answers>)
    requires Mirrors(run, consumers, specs, env) && specs != []
    requires forall i :: 0 <= i < |env| ==> !env[i].start.connectOk
    ensures !Returns(run, |specs|, true)
    ensures Follow(Script(run, |env|), specs, |env|, false)
  {
    forall i | 0 <= i < |run| ensures !EndsRun(run[i]) {
      assert MirrorsAt(run, consumers, specs, env, i);
    }
    StartsInOrderAndAlone(run, consumers, specs, env, |env|);
  }

  // --- Groups left without being waited for ---

  // A group is passed over exactly if its Start fails after the set-up and a later one
  // gets as far again: only the last group is waited for at the end.
  lemma PassedIff(run: seq<Execution>, k: nat)
    requires k <= |run| && NoneEnds(run, k - 1)
    ensures NonePassed(run, k) <==>
            forall i, j :: 0 <= i < j < k && run[i].reach.FailedLate? ==> run[j].reach.FailedEarly?
  {
    forall j: nat | j < k && Pending(run, j) ensures exists i :: 0 <= i < j && run[i].reach.FailedLate? {
      PendingSince(run, j);
    }
    forall i, j | 0 <= i < j < k && run[i].reach.FailedLate? && !run[j].reach.FailedEarly? ensures !NonePassed(run, k) {
      PassedBy(run, i, j);
    }
  }

  lemma {:induction false} PendingSince(run: seq<Execution>, k: nat)
    requires k <= |run| && NoneEnds(run, k) && Pending(run, k)
    ensures exists i :: 0 <= i < k && run[i].reach.FailedLate?
  {
    if run[k - 1].reach.FailedEarly? {
      PendingSince(run, k - 1);
    } else {
      assert !EndsRun(run[k - 1]);
    }
  }

  lemma {:induction false} PassedBy(run: seq<Execution>, i: nat, j: nat)
    requires i < j < |run| && run[i].reach.FailedLate? && !run[j].reach.FailedEarly?
    ensures exists l: nat :: l <= j && !run[l].reach.FailedEarly? && Pending(run, l)
  {
    if l :| i < l < j && !run[l].reach.FailedEarly? {
      PassedBy(run, i, l);
    } else {
      StaysPending(run, i, j);
    }
  }

  lemma {:induction false} StaysPending(run: seq<Execution>, i: nat, j: nat)
    requires i < j <= |run| && run[i].reach.FailedLate?
    requires forall l :: i < l < j ==> run[l].reach.FailedEarly?
    ensures Pending(run, j)
  {
    if j == i + 1 {
    } else {
      StaysPending(run, i, j - 1);
    }
  }
}
