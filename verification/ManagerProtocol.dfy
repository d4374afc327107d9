// The configuration loop of the manager and the goroutines it starts, as a
// transition system: one action per statement that another goroutine can
// observe, in any interleaving.
module ManagerProtocol {
  import opened Sequences

  type Cfg = nat

  // Where the loop of Manager.run stands.
  datatype LoopPc =
    | Select                                // waiting in the select
    | Received(cfg: Cfg)                    // a configuration has been taken from the channel
    | Waiting(cfg: Cfg)                     // previous context cancelled, blocked on the mutex
    | Draining(cfg: Cfg)                    // mutex taken, emptying the channel
    | Drained(cfg: Cfg)
    | ContextMade(cfg: Cfg, ctx: nat)
    | ConfigSet(cfg: Cfg, ctx: nat)
    | StorageFailed(ctx: nat)               // createStorage returned an error
    | FailureCancelled                      // ... and the new context is cancelled
    | StorageOpened(cfg: Cfg, ctx: nat, storage: nat)
    | CollectorSet(cfg: Cfg, ctx: nat, storage: nat)
    | Returned

  // Where a worker goroutine stands; teardown runs in this order.
  datatype WorkerPc = Processing | Finished | CollectorCleared | ConfigCleared | EngineStopped | StorageClosed

  datatype Worker = Worker(ctx: nat, cfg: Cfg, storage: nat, pc: WorkerPc)

  datatype Attempt = Attempt(cfg: Cfg, created: bool)

  datatype State = State(
    queue: seq<Cfg>,            // the buffered configuration channel
    pc: LoopPc,
    locked: bool,               // the mutex; like Go's it records no owner
    faulted: bool,              // an unlocked mutex has been unlocked, which kills the process
    locks: nat,
    unlocks: nat,
    rootCancelled: bool,
    nextCtx: nat,
    cancelled: set<nat>,        // contexts whose own cancel function has been called
    lastCancel: Option<nat>,    // lastConfigCancel
    published: Option<Cfg>,     // the HTTP server's configuration
    collector: Option<nat>,     // the HTTP server's collector, by the storage it writes to
    nextStorage: nat,
    open: set<nat>,             // storages opened and not closed
    workers: seq<Worker>,       // goroutines that have not returned
    sent: seq<Cfg>,             // every configuration a sender put into the channel
    applied: seq<Cfg>,          // every configuration the loop published
    attempts: seq<Attempt>,     // every createStorage call
    skipped: nat                // configurations overtaken while draining
  )

  const CHANNEL_CAPACITY := 100

  const INITIAL := State([], Select, false, false, 0, 0, false, 0, {}, None, None, None, 0, {}, [], [], [], [], 0)

  datatype Action =
    | Send(cfg: Cfg)               // a handler's send succeeds; with a full channel it times out
    | CancelRoot
    | Return                       // the ctx.Done arm of the select
    | Receive
    | CancelPrevious
    | Lock
    | DrainOne
    | DrainDone
    | MakeContext
    | PublishConfig
    | CreateStorage(ok: bool)
    | CancelFailed
    | UnlockFailed
    | PublishCollector
    | Spawn
    | WorkerStep(i: nat)

  predicate Holding(pc: LoopPc) {
    pc.Received? || pc.Waiting? || pc.Draining? || pc.Drained? || pc.ContextMade?
  }

  // The loop is between its Lock and its Unlock or hand-over.
  predicate InCritical(pc: LoopPc) {
    pc.Draining? || pc.Drained? || pc.ContextMade? || pc.ConfigSet? || pc.StorageFailed? || pc.FailureCancelled?
    || pc.StorageOpened? || pc.CollectorSet?
  }

  predicate Enabled(s: State, a: Action) {
    !s.faulted &&
    match a
    case Send(_) => |s.queue| < CHANNEL_CAPACITY
    case CancelRoot => true
    case Return => s.pc.Select? && s.rootCancelled
    case Receive => s.pc.Select? && s.queue != []
    case CancelPrevious => s.pc.Received?
    case Lock => s.pc.Waiting? && !s.locked
    case DrainOne => s.pc.Draining? && s.queue != []
    case DrainDone => s.pc.Draining? && s.queue == []
    case MakeContext => s.pc.Drained?
    case PublishConfig => s.pc.ContextMade?
    case CreateStorage(_) => s.pc.ConfigSet?
    case CancelFailed => s.pc.StorageFailed?
    case UnlockFailed => s.pc.FailureCancelled?
    case PublishCollector => s.pc.StorageOpened?
    case Spawn => s.pc.CollectorSet?
    case WorkerStep(i) => i < |s.workers|
  }

  function CancelLast(s: State): State {
    if s.lastCancel.Some? then s.(cancelled := s.cancelled + {s.lastCancel.value}) else s
  }

  function Unlock(s: State): State {
    if s.locked then s.(locked := false, unlocks := s.unlocks + 1) else s.(faulted := true)
  }

  function Apply(s: State, a: Action): State
    requires Enabled(s, a)
  {
    match a
    case Send(cfg) => s.(queue := s.queue + [cfg], sent := s.sent + [cfg])
    case CancelRoot => s.(rootCancelled := true)
    case Return => CancelLast(s).(pc := Returned)
    case Receive => s.(pc := Received(s.queue[0]), queue := s.queue[1..])
    case CancelPrevious => CancelLast(s).(pc := Waiting(s.pc.cfg))
    case Lock => s.(pc := Draining(s.pc.cfg), locked := true, locks := s.locks + 1)
    case DrainOne => s.(pc := Draining(s.queue[0]), queue := s.queue[1..], skipped := s.skipped + 1)
    case DrainDone => s.(pc := Drained(s.pc.cfg))
    case MakeContext =>
      s.(pc := ContextMade(s.pc.cfg, s.nextCtx), lastCancel := Some(s.nextCtx), nextCtx := s.nextCtx + 1)
    case PublishConfig =>
      s.(pc := ConfigSet(s.pc.cfg, s.pc.ctx), published := Some(s.pc.cfg), applied := s.applied + [s.pc.cfg])
    case CreateStorage(ok) =>
      var s' := s.(attempts := s.attempts + [Attempt(s.pc.cfg, ok)]);
      if ok then
        s'.(pc := StorageOpened(s.pc.cfg, s.pc.ctx, s.nextStorage), open := s.open + {s.nextStorage},
            nextStorage := s.nextStorage + 1)
      else
        s'.(pc := StorageFailed(s.pc.ctx))
    case CancelFailed => CancelLast(s).(pc := FailureCancelled)
    case UnlockFailed => Unlock(s).(pc := Select)
    case PublishCollector => s.(pc := CollectorSet(s.pc.cfg, s.pc.ctx, s.pc.storage), collector := Some(s.pc.storage))
    case Spawn =>
      // The loop goes back to its select without unlocking.
      s.(pc := Select, workers := s.workers + [Worker(s.pc.ctx, s.pc.cfg, s.pc.storage, Processing)])
    case WorkerStep(i) => StepWorker(s, i)
  }

  // processConfig may return at any time; the deferred calls then run one by one.
  function StepWorker(s: State, i: nat): State
    requires i < |s.workers|
  {
    var w := s.workers[i];
    match w.pc
    case Processing => s.(workers := s.workers[i := w.(pc := Finished)])
    case Finished => s.(workers := s.workers[i := w.(pc := CollectorCleared)], collector := None)
    case CollectorCleared => s.(workers := s.workers[i := w.(pc := ConfigCleared)], published := None)
    case ConfigCleared => s.(workers := s.workers[i := w.(pc := EngineStopped)])
    case EngineStopped => s.(workers := s.workers[i := w.(pc := StorageClosed)], open := s.open - {w.storage})
    case StorageClosed => Unlock(s).(workers := s.workers[..i] + s.workers[i + 1..])
  }

  // The state a sequence of actions leads to, if every action was enabled.
  function Exec(acts: seq<Action>): Option<State> {
    if acts == [] then Some(INITIAL) else
    var before := Exec(acts[..|acts| - 1]);
    if before.Some? && Enabled(before.value, Last(acts)) then Some(Apply(before.value, Last(acts))) else None
  }

  predicate IsCancelled(s: State, ctx: nat) {
    s.rootCancelled || ctx in s.cancelled
  }
}
