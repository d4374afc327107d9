// What holds in every state that some interleaving of the manager's actions
// reaches.
module ManagerSafety {
  import opened Sequences
  import opened ManagerProtocol

  function Bit(b: bool): nat {
    if b then 1 else 0
  }

  // --- The inductive invariant, in five parts ---
  //
  // By the first part there is at most one worker, the one at position 0.

  ghost predicate MutexInv(s: State) {
    && !s.faulted
    && Bit(InCritical(s.pc)) + |s.workers| == Bit(s.locked)
    && s.locks == s.unlocks + Bit(s.locked)
  }

  ghost predicate ContextInv(s: State) {
    && (forall c :: c in s.cancelled ==> c < s.nextCtx)
    && (s.lastCancel.Some? ==> s.lastCancel.value < s.nextCtx)
    && (s.pc.ContextMade? || s.pc.ConfigSet? || s.pc.StorageFailed? || s.pc.StorageOpened? || s.pc.CollectorSet? ==>
          s.lastCancel == Some(s.pc.ctx) && s.pc.ctx !in s.cancelled)
    && (s.pc.Waiting? && s.lastCancel.Some? ==> s.lastCancel.value in s.cancelled)
    && (s.pc.Returned? ==> s.rootCancelled)
    && (s.workers != [] ==> var ctx := s.workers[0].ctx;
          s.lastCancel == Some(ctx) && (ctx in s.cancelled <==> s.pc.Waiting? || s.pc.Returned?))
  }

  ghost predicate StorageInv(s: State) {
    && (forall id :: id in s.open ==> id < s.nextStorage)
    && (s.workers == [] ==>
          && s.open == (if s.pc.StorageOpened? || s.pc.CollectorSet? then {s.pc.storage} else {})
          && s.collector == (if s.pc.CollectorSet? then Some(s.pc.storage) else None))
    && (s.workers != [] ==> var w := s.workers[0];
          && s.open == (if w.pc.StorageClosed? then {} else {w.storage})
          && s.collector == (if w.pc.Processing? || w.pc.Finished? then Some(w.storage) else None))
  }

  ghost predicate PublishedInv(s: State) {
    AttemptNoted(s) && PublishedByLoop(s) && PublishedByWorker(s)
  }

  ghost predicate AttemptNoted(s: State) {
    && (s.pc.StorageFailed? || s.pc.FailureCancelled? ==> s.attempts != [] && !Last(s.attempts).created)
    && (s.pc.StorageOpened? || s.pc.CollectorSet? ==> s.attempts != [] && Last(s.attempts) == Attempt(s.pc.cfg, true))
  }

  ghost predicate PublishedByLoop(s: State) {
    && (s.pc.ConfigSet? || s.pc.StorageOpened? || s.pc.CollectorSet? ==> s.published == Some(s.pc.cfg))
    && (s.workers == [] && !s.pc.ConfigSet? && !s.pc.StorageOpened? && !s.pc.CollectorSet? ==>
          s.published == LeftOver(s.attempts))
  }

  ghost predicate PublishedByWorker(s: State) {
    s.workers != [] ==> var w := s.workers[0];
      && s.attempts != [] && Last(s.attempts) == Attempt(w.cfg, true)
      && s.published ==
           (if w.pc.Processing? || w.pc.Finished? || w.pc.CollectorCleared? then Some(w.cfg) else None)
  }

  // One createStorage call for each configuration published.
  ghost predicate AttemptsInv(s: State) {
    s.applied == if s.pc.ConfigSet? then CfgsOf(s.attempts) + [s.pc.cfg] else CfgsOf(s.attempts)
  }

  function CfgsOf(attempts: seq<Attempt>): seq<Cfg> {
    if attempts == [] then [] else CfgsOf(attempts[..|attempts| - 1]) + [Last(attempts).cfg]
  }

  lemma CfgsSnoc(attempts: seq<Attempt>, a: Attempt)
    ensures CfgsOf(attempts + [a]) == CfgsOf(attempts) + [a.cfg]
  {
    assert (attempts + [a])[..|attempts|] == attempts;
  }

  // What a finished sequence of attempts leaves published: the configuration of
  // the last one if its storage could not be created.
  function LeftOver(attempts: seq<Attempt>): Option<Cfg> {
    if attempts != [] && !Last(attempts).created then Some(Last(attempts).cfg) else None
  }

  ghost predicate Inv(s: State) {
    MutexInv(s) && ContextInv(s) && StorageInv(s) && PublishedInv(s) && AttemptsInv(s)
  }

  lemma MutexKeptByLoop(s: State, a: Action)
    requires MutexInv(s) && Enabled(s, a) && !a.WorkerStep?
    ensures MutexInv(Apply(s, a))
  {
  }

  lemma MutexKeptByWorker(s: State, i: nat)
    requires MutexInv(s) && i < |s.workers|
    ensures MutexInv(StepWorker(s, i))
  {
  }

  lemma ContextKeptByLoop(s: State, a: Action)
    requires MutexInv(s) && ContextInv(s) && Enabled(s, a) && !a.WorkerStep?
    ensures ContextInv(Apply(s, a))
  {
  }

  lemma ContextKeptByWorker(s: State, i: nat)
    requires MutexInv(s) && ContextInv(s) && i < |s.workers|
    ensures ContextInv(StepWorker(s, i))
  {
  }

  lemma StorageKeptByLoop(s: State, a: Action)
    requires MutexInv(s) && StorageInv(s) && Enabled(s, a) && !a.WorkerStep?
    ensures StorageInv(Apply(s, a))
  {
  }

  lemma StorageKeptByWorker(s: State, i: nat)
    requires MutexInv(s) && StorageInv(s) && i < |s.workers|
    ensures StorageInv(StepWorker(s, i))
  {
  }

  lemma AttemptNotedByLoop(s: State, a: Action)
    requires AttemptNoted(s) && Enabled(s, a) && !a.WorkerStep?
    ensures AttemptNoted(Apply(s, a))
  {
  }

  lemma PublishedKeptByLoop(s: State, a: Action)
    requires MutexInv(s) && PublishedInv(s) && Enabled(s, a) && !a.WorkerStep?
    ensures PublishedByLoop(Apply(s, a))
  {
  }

  lemma WorkerKeptByLoop(s: State, a: Action)
    requires MutexInv(s) && PublishedInv(s) && Enabled(s, a) && !a.WorkerStep?
    ensures PublishedByWorker(Apply(s, a))
  {
  }

  lemma PublishedKeptByWorker(s: State, i: nat)
    requires MutexInv(s) && PublishedInv(s) && i < |s.workers|
    ensures PublishedInv(StepWorker(s, i))
  {
  }

  lemma AttemptsKeptByLoop(s: State, a: Action)
    requires AttemptsInv(s) && Enabled(s, a) && !a.WorkerStep?
    ensures AttemptsInv(Apply(s, a))
  {
    if a.CreateStorage? {
      CfgsSnoc(s.attempts, Attempt(s.pc.cfg, a.ok));
    }
  }

  // What a worker does not touch.
  ghost predicate Untouched(s: State, t: State) {
    && t.pc == s.pc && t.queue == s.queue && t.sent == s.sent && t.applied == s.applied && t.attempts == s.attempts
    && t.skipped == s.skipped
  }

  lemma StepIsFramed(s: State, i: nat)
    requires i < |s.workers|
    ensures Untouched(s, StepWorker(s, i))
  {
  }

  lemma AttemptsFramed(s: State, t: State)
    requires AttemptsInv(s) && Untouched(s, t)
    ensures AttemptsInv(t)
  {
  }

  lemma InvPreserved(s: State, a: Action)
    requires Inv(s) && Enabled(s, a)
    ensures Inv(Apply(s, a))
  {
    if a.WorkerStep? {
      MutexKeptByWorker(s, a.i);
      ContextKeptByWorker(s, a.i);
      StorageKeptByWorker(s, a.i);
      PublishedKeptByWorker(s, a.i);
      StepIsFramed(s, a.i);
      AttemptsFramed(s, StepWorker(s, a.i));
    } else {
      MutexKeptByLoop(s, a);
      ContextKeptByLoop(s, a);
      StorageKeptByLoop(s, a);
      AttemptNotedByLoop(s, a);
      PublishedKeptByLoop(s, a);
      WorkerKeptByLoop(s, a);
      AttemptsKeptByLoop(s, a);
    }
  }

  lemma InvInitially()
    ensures Inv(INITIAL)
  {
  }

  lemma {:induction false} Reachable(acts: seq<Action>)
    requires Exec(acts).Some?
    ensures Inv(Exec(acts).value)
  {
    if acts != [] {
      var before := Exec(acts[..|acts| - 1]).value;
      Reachable(acts[..|acts| - 1]);
      InvPreserved(before, Last(acts));
      assert Exec(acts).value == Apply(before, Last(acts));
    } else {
      InvInitially();
    }
  }
}
