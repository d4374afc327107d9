// What the manager promises its users, for every interleaving of its loop, its
// workers and the senders.
module ManagerTheorems {
  import opened Sequences
  import opened ManagerProtocol
  import opened ManagerSafety

  // Despite the hand-over the mutex is locked exactly while the loop is in its
  // critical section or one worker lives, never both, and every Unlock finds it
  // locked.
  ghost predicate MutexHandedOver(s: State) {
    && !s.faulted
    && |s.workers| <= 1
    && (s.locked <==> InCritical(s.pc) || s.workers != [])
    && !(InCritical(s.pc) && s.workers != [])
    && s.locks == s.unlocks + (if s.locked then 1 else 0)
  }

  lemma MutexIsHandedOver(acts: seq<Action>)
    requires Exec(acts).Some?
    ensures MutexHandedOver(Exec(acts).value)
  {
    Reachable(acts);
    HandOverFromInv(Exec(acts).value);
  }

  lemma HandOverFromInv(s: State)
    requires Inv(s)
    ensures MutexHandedOver(s)
  {
  }

  ghost predicate StorageExclusive(s: State) {
    && (forall a, b :: a in s.open && b in s.open ==> a == b)
    && (s.open != {} ==> s.locked)
    && (s.collector.Some? ==> s.collector.value in s.open)
    && (forall w :: w in s.workers && !w.pc.StorageClosed? ==> s.open == {w.storage})
  }

  lemma StorageIsExclusive(acts: seq<Action>)
    requires Exec(acts).Some?
    ensures StorageExclusive(Exec(acts).value)
  {
    Reachable(acts);
    ExclusiveFromInv(Exec(acts).value);
  }

  lemma ExclusiveFromInv(s: State)
    requires Inv(s)
    ensures StorageExclusive(s)
  {
  }

  // The loop never waits for a worker it has not cancelled, and a worker is
  // cancelled for no other reason than a newer configuration or the end.
  ghost predicate WaitsForCancelled(s: State) {
    forall w :: w in s.workers ==>
      && s.lastCancel == Some(w.ctx)
      && (s.pc.Waiting? ==> IsCancelled(s, w.ctx))
      && (IsCancelled(s, w.ctx) <==> s.rootCancelled || s.pc.Waiting?)
  }

  lemma WaiterHasCancelled(acts: seq<Action>)
    requires Exec(acts).Some?
    ensures WaitsForCancelled(Exec(acts).value)
  {
    Reachable(acts);
    WaitsFromInv(Exec(acts).value);
  }

  lemma WaitsFromInv(s: State)
    requires Inv(s)
    ensures WaitsForCancelled(s)
  {
  }

  // --- Contexts ---

  // Every context but the last one made has been cancelled, and that one too once a newer
  // configuration waits, its own createStorage has failed, or the loop has returned.
  ghost predicate ContextsCancelled(s: State) {
    && (forall c: nat :: c < s.nextCtx && s.lastCancel != Some(c) ==> c in s.cancelled)
    && (s.lastCancel.Some? && (s.pc.Waiting? || s.pc.Draining? || s.pc.Drained? || s.pc.Returned?) ==>
          s.lastCancel.value in s.cancelled)
    && (s.attempts != [] && !Last(s.attempts).created
        && !s.pc.ContextMade? && !s.pc.ConfigSet? && !s.pc.StorageFailed? ==>
          s.lastCancel.Some? && s.lastCancel.value in s.cancelled)
  }

  lemma CancelledByLoop(s: State, a: Action)
    requires ContextInv(s) && ContextsCancelled(s) && Enabled(s, a) && !a.WorkerStep?
    ensures ContextsCancelled(Apply(s, a))
  {
  }

  ghost predicate SameContexts(s: State, t: State) {
    t.nextCtx == s.nextCtx && t.lastCancel == s.lastCancel && t.cancelled == s.cancelled
  }

  lemma StepKeepsContexts(s: State, i: nat)
    requires i < |s.workers|
    ensures SameContexts(s, StepWorker(s, i))
  {
  }

  lemma CancelledFramed(s: State, t: State)
    requires ContextsCancelled(s) && Untouched(s, t) && SameContexts(s, t)
    ensures ContextsCancelled(t)
  {
  }

  lemma {:induction false} ContextsAreCancelled(acts: seq<Action>)
    requires Exec(acts).Some?
    ensures ContextsCancelled(Exec(acts).value)
  {
    if acts != [] {
      var init, a := acts[..|acts| - 1], Last(acts);
      ContextsAreCancelled(init);
      Reachable(init);
      if a.WorkerStep? {
        StepIsFramed(Exec(init).value, a.i);
        StepKeepsContexts(Exec(init).value, a.i);
        CancelledFramed(Exec(init).value, StepWorker(Exec(init).value, a.i));
      } else {
        CancelledByLoop(Exec(init).value, a);
      }
    }
  }

  // With the mutex free, a configuration is still published exactly when the
  // last createStorage failed, and then it is that attempt's configuration.
  ghost predicate PublishedByFailure(s: State) {
    && s.collector == None
    && (s.published.Some? <==> s.attempts != [] && !Last(s.attempts).created)
    && (s.published.Some? ==> s.applied != [] && s.published.value == Last(s.attempts).cfg == Last(s.applied))
  }

  lemma PublishedWhenIdle(acts: seq<Action>)
    requires Exec(acts).Some? && !Exec(acts).value.locked
    ensures PublishedByFailure(Exec(acts).value)
  {
    Reachable(acts);
    PublishedFromInv(Exec(acts).value);
  }

  lemma PublishedFromInv(s: State)
    requires Inv(s) && !s.locked
    ensures PublishedByFailure(s)
  {
  }

  // One more action, for runs written out.
  lemma Then(acts: seq<Action>, a: Action) returns (more: seq<Action>)
    requires Exec(acts).Some? && Enabled(Exec(acts).value, a)
    ensures more == acts + [a] && Exec(more) == Some(Apply(Exec(acts).value, a))
  {
    more := acts + [a];
    ExecSnoc(acts, a);
  }

  lemma ExecSnoc(acts: seq<Action>, a: Action)
    requires Exec(acts).Some? && Enabled(Exec(acts).value, a)
    ensures Exec(acts + [a]) == Some(Apply(Exec(acts).value, a))
  {
    assert (acts + [a])[..|acts|] == acts;
  }

  const UP_TO_STORAGE := [Send(7), Receive, CancelPrevious, Lock, DrainDone, MakeContext, PublishConfig]

  lemma RunToStorage()
    ensures Exec(UP_TO_STORAGE).Some?
    ensures var s := Exec(UP_TO_STORAGE).value;
            && s.pc == ConfigSet(7, 0) && s.locked && !s.faulted && s.published == Some(7) && s.lastCancel == Some(0)
            && s.queue == [] && s.workers == [] && s.attempts == []
  {
    var acts := RunToLock();
    acts := Then(acts, DrainDone);
    acts := Then(acts, MakeContext);
    acts := Then(acts, PublishConfig);
    assert acts == UP_TO_STORAGE;
  }

  lemma RunToLock() returns (acts: seq<Action>)
    ensures acts == [Send(7), Receive, CancelPrevious, Lock] && Exec(acts).Some?
    ensures Exec(acts).value ==
            INITIAL.(pc := Draining(7), locked := true, locks := 1, sent := [7])
  {
    acts := Then([], Send(7));
    acts := Then(acts, Receive);
    acts := Then(acts, CancelPrevious);
    acts := Then(acts, Lock);
  }

  const FAILING := UP_TO_STORAGE + [CreateStorage(false)] + [CancelFailed] + [UnlockFailed]

  // A run whose storage cannot be created ends idle, with nothing running, and its
  // configuration published.
  lemma FailedStorageStaysPublished()
    ensures Exec(FAILING).Some?
    ensures var s := Exec(FAILING).value;
            s.pc.Select? && !s.locked && s.queue == [] && s.workers == [] && s.published == Some(7)
  {
    RunToStorage();
    var acts := Then(UP_TO_STORAGE, CreateStorage(false));
    acts := Then(acts, CancelFailed);
    acts := Then(acts, UnlockFailed);
  }

  // --- Sending a configuration ---

  datatype Reply = Unchanged | Queued | Busy

  // The handler's answer to a valid configuration; its select waits for room in the
  // channel until it times out. hash is what configurations are compared by, and what
  // they hash to now: a repetition scales the published one in place.
  function Update(s: State, cfg: Cfg, hash: Cfg -> string): Reply {
    if s.published.Some? && hash(s.published.value) == hash(cfg) then Unchanged
    else if |s.queue| < CHANNEL_CAPACITY then Queued
    else Busy
  }

  // With the mutex free, a configuration is turned away as unchanged exactly if the
  // last createStorage failed for one with its hash: sending it again does not try again.
  lemma TurnedAwayIff(acts: seq<Action>, cfg: Cfg, hash: Cfg -> string)
    requires Exec(acts).Some? && !Exec(acts).value.locked
    ensures var s := Exec(acts).value;
            Update(s, cfg, hash).Unchanged? <==>
            s.attempts != [] && !Last(s.attempts).created && hash(Last(s.attempts).cfg) == hash(cfg)
  {
    PublishedWhenIdle(acts);
  }

  // While a worker lives, exactly if it has not unpublished yet and its own has the hash.
  lemma TurnedAwayWhileRunning(acts: seq<Action>, cfg: Cfg, hash: Cfg -> string)
    requires Exec(acts).Some? && Exec(acts).value.workers != []
    ensures var s := Exec(acts).value;
            var w := s.workers[0];
            Update(s, cfg, hash).Unchanged? <==>
            hash(w.cfg) == hash(cfg) && (w.pc.Processing? || w.pc.Finished? || w.pc.CollectorCleared?)
  {
    Reachable(acts);
  }

  lemma {:induction false} QueueIsBounded(acts: seq<Action>)
    requires Exec(acts).Some?
    ensures |Exec(acts).value.queue| <= 100
  {
    if acts != [] {
      var before := Exec(acts[..|acts| - 1]).value;
      QueueIsBounded(acts[..|acts| - 1]);
      QueueStaysBounded(before, Last(acts));
    }
  }

  lemma QueueStaysBounded(s: State, a: Action)
    requires Enabled(s, a) && |s.queue| <= 100
    ensures |Apply(s, a).queue| <= 100
  {
    if a.WorkerStep? {
      StepIsFramed(s, a.i);
    }
  }

  // Otherwise it is queued if the channel has room, and refused exactly if 100 are in it.
  lemma RepliesIff(acts: seq<Action>, cfg: Cfg, hash: Cfg -> string)
    requires Exec(acts).Some?
    ensures var s := Exec(acts).value;
            var same := s.published.Some? && hash(s.published.value) == hash(cfg);
            && (Update(s, cfg, hash).Unchanged? <==> same)
            && (Update(s, cfg, hash).Queued? <==> !same && Enabled(s, Send(cfg)))
            && (Update(s, cfg, hash).Busy? <==> !same && |s.queue| == 100)
  {
    QueueIsBounded(acts);
    MutexIsHandedOver(acts);
  }

  lemma ResendDoesNothing(hash: Cfg -> string)
    ensures Exec(FAILING).Some? && Update(Exec(FAILING).value, 7, hash) == Unchanged
  {
    FailedStorageStaysPublished();
  }

  // --- Supersession ---

  // The part of the state that accounts for configurations.
  datatype Ledger = Ledger(sent: seq<Cfg>, queue: seq<Cfg>, held: Option<Cfg>, applied: seq<Cfg>, skipped: nat)

  function LedgerOf(s: State): Ledger {
    Ledger(s.sent, s.queue, if Holding(s.pc) then Some(s.pc.cfg) else None, s.applied, s.skipped)
  }

  function LedgerStep(l: Ledger, a: Action): Ledger {
    match a
    case Send(c) => l.(sent := l.sent + [c], queue := l.queue + [c])
    case Receive => if l.queue == [] then l else l.(held := Some(l.queue[0]), queue := l.queue[1..])
    case DrainOne =>
      if l.queue == [] then l else l.(held := Some(l.queue[0]), queue := l.queue[1..], skipped := l.skipped + 1)
    case PublishConfig => if l.held.None? then l else l.(held := None, applied := l.applied + [l.held.value])
    case _ => l
  }

  lemma LedgerFollows(s: State, a: Action)
    requires Enabled(s, a)
    ensures LedgerOf(Apply(s, a)) == LedgerStep(LedgerOf(s), a)
    ensures a.Receive? ==> LedgerOf(s).held.None?
    ensures a.DrainOne? ==> LedgerOf(s).held.Some?
  {
    if a.WorkerStep? {
      StepIsFramed(s, a.i);
      LedgerFramed(s, StepWorker(s, a.i));
    }
  }

  lemma LedgerFramed(s: State, t: State)
    requires Untouched(s, t)
    ensures LedgerOf(t) == LedgerOf(s)
  {
  }

  function Taken(l: Ledger): int {
    |l.sent| - |l.queue|
  }

  // Positions at[i] in the order of sending, all below limit, of the published
  // configurations.
  ghost predicate Locates(at: seq<nat>, sent: seq<Cfg>, applied: seq<Cfg>, limit: int) {
    && |at| == |applied|
    && (forall i, j :: 0 <= i < j < |at| ==> at[i] < at[j])
    && (forall i :: 0 <= i < |at| ==> at[i] < limit && at[i] < |sent| && applied[i] == sent[at[i]])
  }

  // What has been taken is what has been published, what has been skipped and
  // what the loop holds; what has not is in the channel.
  ghost predicate Explains(at: seq<nat>, l: Ledger) {
    && 0 <= Taken(l)
    && l.queue == l.sent[Taken(l)..]
    && l.skipped + |at| + Bit(l.held.Some?) == Taken(l)
    && (l.held.Some? ==> l.sent[Taken(l) - 1] == l.held.value)
    && (l.held.None? && 0 < Taken(l) ==> at != [] && Last(at) == Taken(l) - 1)
    && Locates(at, l.sent, l.applied, Taken(l) - Bit(l.held.Some?))
  }

  lemma SendExplained(at: seq<nat>, l: Ledger, c: Cfg)
    requires Explains(at, l)
    ensures Explains(at, LedgerStep(l, Send(c)))
  {
    assert (l.sent + [c])[Taken(l)..] == l.sent[Taken(l)..] + [c];
  }

  lemma TakeExplained(at: seq<nat>, l: Ledger, l': Ledger)
    requires Explains(at, l) && l.queue != []
    requires l' == l.(held := Some(l.queue[0]), queue := l.queue[1..], skipped := l'.skipped)
    requires l'.skipped == l.skipped + Bit(l.held.Some?)
    ensures Explains(at, l')
  {
    assert l.queue[0] == l.sent[Taken(l)];
    assert l'.queue == l.sent[Taken(l) + 1..];
  }

  lemma PublishExplained(at: seq<nat>, l: Ledger)
    requires Explains(at, l) && l.held.Some?
    ensures Explains(at + [Taken(l) - 1], LedgerStep(l, PublishConfig))
  {
  }

  lemma ExplainsPreserved(at: seq<nat>, l: Ledger, a: Action) returns (at': seq<nat>)
    requires Explains(at, l)
    requires a.Receive? ==> l.held.None?
    requires a.DrainOne? ==> l.held.Some?
    ensures Explains(at', LedgerStep(l, a))
  {
    at' := at;
    if a.Send? {
      SendExplained(at, l, a.cfg);
    } else if (a.Receive? || a.DrainOne?) && l.queue != [] {
      TakeExplained(at, l, LedgerStep(l, a));
    } else if a.PublishConfig? && l.held.Some? {
      at' := at + [Taken(l) - 1];
      PublishExplained(at, l);
    }
  }

  // Sent configurations are taken in order; the published ones are a
  // subsequence, every other one taken was overtaken while draining, none is
  // lost or repeated, and what has not been taken is still queued.
  lemma {:induction false} Supersession(acts: seq<Action>)
    requires Exec(acts).Some?
    ensures exists at :: Explains(at, LedgerOf(Exec(acts).value))
  {
    if acts == [] {
      assert Explains([], LedgerOf(INITIAL));
    } else {
      Supersession(acts[..|acts| - 1]);
      var before := Exec(acts[..|acts| - 1]).value;
      var at :| Explains(at, LedgerOf(before));
      LedgerFollows(before, Last(acts));
      var _ := ExplainsPreserved(at, LedgerOf(before), Last(acts));
    }
  }

  // When the loop stops draining it holds the newest configuration sent.
  lemma DrainEndsAtNewest(acts: seq<Action>)
    requires Exec(acts).Some? && Enabled(Exec(acts).value, DrainDone)
    ensures Exec(acts).value.sent != [] && Exec(acts).value.pc.cfg == Last(Exec(acts).value.sent)
  {
    Supersession(acts);
  }

  // An idle loop with an empty channel has last published the newest
  // configuration sent, and every other one was published before or skipped.
  lemma IdleIsUpToDate(acts: seq<Action>)
    requires Exec(acts).Some?
    requires Exec(acts).value.pc.Select? && Exec(acts).value.queue == []
    ensures var s := Exec(acts).value;
            && |s.sent| == |s.applied| + s.skipped
            && (s.sent != [] ==> s.applied != [] && Last(s.applied) == Last(s.sent))
  {
    Supersession(acts);
    var s := Exec(acts).value;
    var at :| Explains(at, LedgerOf(s));
    EverythingTaken(at, LedgerOf(s));
  }

  lemma EverythingTaken(at: seq<nat>, l: Ledger)
    requires Explains(at, l) && l.held.None? && l.queue == []
    ensures |l.sent| == |l.applied| + l.skipped
    ensures l.sent != [] ==> l.applied != [] && Last(l.applied) == Last(l.sent)
  {
    if l.sent != [] {
      assert l.applied[|at| - 1] == l.sent[at[|at| - 1]];
    }
  }

  // --- Progress ---

  // A move of the loop or the worker that needs neither a sender nor the root
  // context, nor the end of what processConfig is doing.
  predicate OwnMove(s: State, a: Action) {
    && Enabled(s, a) && !a.Send? && !a.CancelRoot?
    && (a.WorkerStep? ==> a.i < |s.workers| && !s.workers[a.i].pc.Processing?)
  }

  // Outside the select either such a move is possible, or the loop waits for the
  // mutex of a worker whose processConfig has been cancelled but has not returned.
  lemma NeverStuck(acts: seq<Action>)
    requires Exec(acts).Some? && !Exec(acts).value.pc.Select? && !Exec(acts).value.pc.Returned?
    ensures var s := Exec(acts).value;
            || (exists a: Action :: OwnMove(s, a))
            || (s.pc.Waiting? && |s.workers| == 1 && s.workers[0].pc.Processing? && IsCancelled(s, s.workers[0].ctx))
  {
    Reachable(acts);
    MovesFromInv(Exec(acts).value);
  }

  lemma MovesFromInv(s: State)
    requires Inv(s) && !s.pc.Select? && !s.pc.Returned?
    ensures || (exists a: Action :: OwnMove(s, a))
            || (s.pc.Waiting? && |s.workers| == 1 && s.workers[0].pc.Processing? && IsCancelled(s, s.workers[0].ctx))
  {
    var a := match s.pc
      case Received(_) => CancelPrevious
      case Waiting(_) => if s.locked then WorkerStep(0) else Lock
      case Draining(_) => if s.queue == [] then DrainDone else DrainOne
      case Drained(_) => MakeContext
      case ContextMade(_, _) => PublishConfig
      case ConfigSet(_, _) => CreateStorage(true)
      case StorageFailed(_) => CancelFailed
      case FailureCancelled => UnlockFailed
      case StorageOpened(_, _, _) => PublishCollector
      case _ => Spawn;
    assert Enabled(s, a);
    assert !(s.pc.Waiting? && s.locked && s.workers[0].pc.Processing?) ==> OwnMove(s, a);
  }

  function Remaining(pc: WorkerPc): nat {
    match pc
    case Processing => 6
    case Finished => 5
    case CollectorCleared => 4
    case ConfigCleared => 3
    case EngineStopped => 2
    case StorageClosed => 1
  }

  // n steps of the only worker and of nobody else.
  function Alone(s: State, n: nat): Option<State>
    decreases n
  {
    if n == 0 then Some(s)
    else if s.faulted || s.workers == [] then None
    else Alone(StepWorker(s, 0), n - 1)
  }

  lemma {:induction false} AloneIsRun(acts: seq<Action>, n: nat)
    requires Exec(acts).Some? && Alone(Exec(acts).value, n).Some?
    ensures Exec(acts + seq(n, _ => WorkerStep(0))) == Alone(Exec(acts).value, n)
    decreases n
  {
    if n == 0 {
      assert acts + seq(0, _ => WorkerStep(0)) == acts;
    } else {
      ExecSnoc(acts, WorkerStep(0));
      AloneIsRun(acts + [WorkerStep(0)], n - 1);
      assert acts + [WorkerStep(0)] + seq(n - 1, _ => WorkerStep(0)) == acts + seq(n, _ => WorkerStep(0));
    }
  }

  ghost predicate TornDown(s: State) {
    s.workers == [] && !s.locked && s.open == {} && s.collector == None && s.published == None
  }

  lemma {:induction false} TeardownAlone(s: State)
    requires Inv(s) && s.workers != []
    ensures var end := Alone(s, Remaining(s.workers[0].pc));
            end.Some? && TornDown(end.value) && end.value.pc == s.pc
    decreases Remaining(s.workers[0].pc)
  {
    var next := StepWorker(s, 0);
    InvPreserved(s, WorkerStep(0));
    if Remaining(s.workers[0].pc) > 1 {
      TeardownAlone(next);
    } else {
      assert Alone(next, 0) == Some(next);
    }
  }

  // When processConfig returns, the worker's own remaining steps, run without
  // interruption, unpublish, close its storage and free the mutex.
  lemma TeardownReleases(acts: seq<Action>)
    requires Exec(acts).Some? && Exec(acts).value.workers != []
    ensures var s := Exec(acts).value;
            var end := Exec(acts + seq(Remaining(s.workers[0].pc), _ => WorkerStep(0)));
            end.Some? && TornDown(end.value) && end.value.pc == s.pc
  {
    Reachable(acts);
    TeardownAlone(Exec(acts).value);
    AloneIsRun(acts, Remaining(Exec(acts).value.workers[0].pc));
  }

  ghost predicate Abandoned(s: State, end: State) {
    && end.pc.Returned? && end.workers == s.workers && end.open == s.open
    && (end.workers == [] <==> !end.locked)
  }

  function ReturnedFrom(s: State): State
    requires s.pc.Select? && !s.faulted
  {
    var c := Apply(s, CancelRoot);
    Apply(c, Return)
  }

  lemma ReturnAbandons(s: State)
    requires Inv(s) && s.pc.Select?
    ensures Abandoned(s, ReturnedFrom(s))
  {
  }

  // Run does not wait for its worker: with the root context cancelled it can
  // return, and with it Manager.Start, whatever the worker is doing.
  lemma ReturnAbandonsWorker(acts: seq<Action>)
    requires Exec(acts).Some? && Exec(acts).value.pc.Select?
    ensures var end := Exec(acts + [CancelRoot] + [Return]);
            end.Some? && Abandoned(Exec(acts).value, end.value)
  {
    var s := Exec(acts).value;
    Reachable(acts);
    ReturnAbandons(s);
    ExecSnoc(acts, CancelRoot);
    ExecSnoc(acts + [CancelRoot], Return);
    assert Exec(acts + [CancelRoot] + [Return]) == Some(ReturnedFrom(s));
  }
}
