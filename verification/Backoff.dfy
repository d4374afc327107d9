// Retrying a call with growing, capped waits in between.
module Backoff {
  import opened Float64
  import opened Scaling
  import opened LoadTestSpecs

  // What the i-th attempt meets: whether the context is done before the call,
  // whether the call succeeds, and whether the context is done during the wait.
  datatype Attempt = Attempt(doneBefore: bool, ok: bool, error: string, doneWaiting: bool)

  datatype Result = Success | Failure(error: string) | Cancelled | BadArgument

  function Capped(d: int, cap: int): int {
    if d < cap then d else cap
  }

  // The duration after k waits; the first wait is already one factor longer than
  // the initial duration.
  function DurationAfter(duration: int, factor: real, cap: int, k: nat): int {
    if k == 0 then duration else Capped(Scaled(DurationAfter(duration, factor, cap, k - 1), factor), cap)
  }

  ghost predicate ProductsFit(duration: int, factor: real, cap: int, steps: int) {
    forall k: nat :: k < steps ==> Within(Scaled(DurationAfter(duration, factor, cap, k), factor), MAX_INT64)
  }

  // Negative durations do not wait.
  function TotalWait(waits: seq<int>): nat {
    if waits == [] then 0 else
    TotalWait(waits[..|waits| - 1]) + if waits[|waits| - 1] < 0 then 0 else waits[|waits| - 1]
  }

  predicate Accepted(duration: int, factor: real, steps: int) {
    steps > 0 && duration > 0 && factor > 0.0
  }

  // Some attempt succeeds, and the context is not done before it.
  predicate Succeeds(env: seq<Attempt>, steps: int)
    requires steps <= |env|
  {
    exists i :: 0 <= i < steps && SucceedsAt(env, i)
  }

  predicate SucceedsAt(env: seq<Attempt>, i: nat)
    requires i < |env|
  {
    && env[i].ok && !env[i].doneBefore
    && forall j :: 0 <= j < i ==> !env[j].ok && !env[j].doneBefore && !env[j].doneWaiting
  }

  lemma SucceedsHere(env: seq<Attempt>, steps: int, i: nat)
    requires i < steps <= |env| && SucceedsAt(env, i)
    ensures Succeeds(env, steps)
  {
  }

  // No attempt can succeed after one that ends the loop without success.
  lemma EndsHere(env: seq<Attempt>, steps: int, i: nat)
    requires i < steps <= |env| && forall j :: 0 <= j < i ==> !env[j].ok
    requires env[i].doneBefore || (!env[i].ok && (env[i].doneWaiting || i == steps - 1))
    ensures !Succeeds(env, steps)
  {
  }

  // Nothing is ever called once the context is done.
  lemma DoneIsFatal(env: seq<Attempt>, steps: int)
    requires 0 < steps <= |env| && env[0].doneBefore
    ensures !Succeeds(env, steps)
  {
  }

  function DurationsOf(duration: int, factor: real, cap: int): nat -> int {
    (k: nat) => DurationAfter(duration, factor, cap, k)
  }

  // The current duration and the waits so far are those of the plan.
  ghost predicate AsPlanned(plan: nat -> int, current: int, waits: seq<int>, i: nat) {
    current == plan(i) && |waits| == i && forall j: nat :: j < i ==> waits[j] == plan(j + 1)
  }

  lemma NextAsPlanned(plan: nat -> int, next: int, waits: seq<int>, i: nat)
    requires AsPlanned(plan, plan(i), waits, i)
    ensures next == plan(i + 1) ==> AsPlanned(plan, next, waits + [next], i + 1)
  {
  }

  method NextDuration(current: int, ghost duration: int, factor: real, cap: int, ghost steps: int, ghost i: nat)
    returns (next: int)
    requires i < steps
    ensures next <= cap
    ensures ProductsFit(duration, factor, cap, steps) && current == DurationsOf(duration, factor, cap)(i) ==>
      next == DurationsOf(duration, factor, cap)(i + 1)
  {
    var product := Multiply(current, factor, MAX_INT64);
    next := Capped(product, cap);
  }

  method ExponentialBackoff(duration: int, factor: real, steps: int, cap: int, env: seq<Attempt>)
    returns (result: Result, calls: nat, waits: seq<int>)
    requires steps <= |env|
    ensures calls <= |env| && |waits| <= calls && (steps >= 0 ==> calls <= steps)
    ensures result.BadArgument? <==> steps <= 0 || duration <= 0 || factor <= 0.0
    ensures result.BadArgument? ==> calls == 0
    // Only the last call made may have succeeded, and it did exactly on success.
    ensures forall i :: 0 <= i < calls - 1 ==> !env[i].ok
    ensures result.Success? <==> calls > 0 && env[calls - 1].ok
    ensures result.Success? <==> Accepted(duration, factor, steps) && Succeeds(env, steps)
    ensures result.Failure? <==> Accepted(duration, factor, steps) && calls == steps && !env[steps - 1].ok
    ensures result.Failure? ==> result.error == env[steps - 1].error
    // Cancellation is noticed before each call and during each wait, and only then.
    ensures forall i :: 0 <= i < calls ==> !env[i].doneBefore
    ensures forall i :: 0 <= i < calls - 1 ==> !env[i].doneWaiting
    ensures result.Cancelled? ==>
      calls < steps && (env[calls].doneBefore || (calls > 0 && env[calls - 1].doneWaiting))
    // There is a wait between any two calls, and none after the last if that decides.
    ensures !result.BadArgument? ==> |waits| == if result.Cancelled? then calls else calls - 1
    ensures !result.BadArgument? ==> |waits| <= steps - 1
    ensures forall i :: 0 <= i < |waits| ==> waits[i] <= cap
    ensures ProductsFit(duration, factor, cap, steps) ==>
      forall i: nat :: i < |waits| ==> waits[i] == DurationsOf(duration, factor, cap)(i + 1)
  {
    calls, waits := 0, [];
    if steps <= 0 {
      return BadArgument, calls, waits;
    }
    if duration <= 0 {
      return BadArgument, calls, waits;
    }
    if factor <= 0.0 {
      return BadArgument, calls, waits;
    }
    var currentDuration := duration;
    for i := 0 to steps
      invariant i < steps && calls == i && |waits| == i
      invariant forall j :: 0 <= j < i ==> !env[j].ok && !env[j].doneBefore && !env[j].doneWaiting
      invariant forall j :: 0 <= j < i ==> waits[j] <= cap
      invariant ProductsFit(duration, factor, cap, steps) ==>
        AsPlanned(DurationsOf(duration, factor, cap), currentDuration, waits, i)
    {
      if env[i].doneBefore {
        EndsHere(env, steps, i);
        return Cancelled, calls, waits;
      }
      calls := calls + 1;
      if !env[i].ok {
        if i == steps - 1 {
          EndsHere(env, steps, i);
          return Failure(env[i].error), calls, waits;
        }
        currentDuration := NextDuration(currentDuration, duration, factor, cap, steps, i);
        if ProductsFit(duration, factor, cap, steps) {
          NextAsPlanned(DurationsOf(duration, factor, cap), currentDuration, waits, i);
        }
        waits := waits + [currentDuration];
        if env[i].doneWaiting {
          EndsHere(env, steps, i);
          return Cancelled, calls, waits;
        }
        continue;
      }
      SucceedsHere(env, steps, i);
      return Success, calls, waits;
    }
    assert false;
  }

  // Whatever the outcomes, at most n waits of at most cap each.
  lemma {:induction false} WaitsAreBounded(waits: seq<int>, n: nat, cap: nat)
    requires |waits| <= n && forall i :: 0 <= i < |waits| ==> waits[i] <= cap
    ensures TotalWait(waits) <= n * cap
  {
    if waits == [] {
    } else {
      WaitsAreBounded(waits[..|waits| - 1], n - 1, cap);
      assert n * cap == (n - 1) * cap + cap;
    }
  }

  // With a factor of at least 1, capping at every step is capping once, for a cap
  // that float64 represents (as it does any up to 104 days).
  lemma {:induction false} CappedOnce(duration: int, factor: real, cap: int, k: nat)
    requires duration > 0 && factor >= 1.0 && cap >= 0 && Exactly(cap) && k >= 1
    ensures DurationAfter(duration, factor, cap, k) == Capped(Iterated(duration, factor, k), cap)
  {
    if k == 1 {
      assert DurationAfter(duration, factor, cap, 0) == Iterated(duration, factor, 0);
    } else {
      CappedOnce(duration, factor, cap, k - 1);
      var d := Iterated(duration, factor, k - 1);
      if d >= cap {
        ScaledGrows(cap, factor);
        ScaledReaches(cap, d, factor);
      }
    }
  }

  lemma ScaledReaches(cap: int, d: int, factor: real)
    requires 0 <= cap <= d && Exactly(cap) && factor >= 1.0
    ensures Scaled(d, factor) >= cap
  {
    RoundedIsMonotone(cap as real, d as real);
    TimesGrows(Rounded(d as real), factor);
    RoundedIsMonotone(cap as real, Times(Rounded(d as real), factor));
    TruncAtLeast(Rounded(Times(Rounded(d as real), factor)), cap);
  }

  // With one below 1 it is not: the capped duration shrinks further.
  lemma CappedEachTime()
    ensures DurationAfter(100, 0.5, 10, 2) == 5 && Capped(Iterated(100, 0.5, 2), 10) == 10
  {
    HalfIsExact(50);
    HalfIsExact(25);
    HalfIsExact(5);
    assert Iterated(100, 0.5, 0) == 100 && Iterated(100, 0.5, 1) == 50;
    assert DurationAfter(100, 0.5, 10, 0) == 100 && DurationAfter(100, 0.5, 10, 1) == 10;
  }

  lemma HalfIsExact(n: nat)
    requires n <= 1000
    ensures Scaled(2 * n, 0.5) == n
  {
    SmallIsExact(2 * n);
    SmallIsExact(n);
    assert Times((2 * n) as real, 0.5) == n as real;
  }

  // --- Without rounding or truncation ---

  function CappedReal(d: real, cap: real): real {
    if d < cap then d else cap
  }

  function CappedBy(cap: real, f: real -> real): real -> real {
    x => CappedReal(f(x), cap)
  }

  function ExactAfter(duration: int, factor: real, cap: real, k: nat): real {
    Repeat(CappedBy(cap, Upper(factor)), duration as real, k)
  }

  ghost predicate StaysFrom(cap: real, f: real -> real) {
    forall x :: x >= cap ==> f(x) >= cap
  }

  lemma {:induction false} RepeatCapped(cap: real, f: real -> real, x: real, k: nat)
    requires k >= 1 && StaysFrom(cap, f)
    ensures Repeat(CappedBy(cap, f), x, k) == CappedReal(Repeat(f, x, k), cap)
  {
    var g := CappedBy(cap, f);
    if k > 1 {
      RepeatCapped(cap, f, x, k - 1);
      assert g(Repeat(g, x, k - 1)) == CappedReal(f(Repeat(g, x, k - 1)), cap);
    } else {
      assert Repeat(g, x, 0) == x == Repeat(f, x, 0);
    }
  }

  lemma UpperStaysFrom(cap: real, factor: real)
    requires factor >= 1.0 && cap >= 0.0
    ensures StaysFrom(cap, Upper(factor))
  {
    forall x | x >= cap ensures Upper(factor)(x) >= cap {
      TimesGrows(x, factor);
    }
  }

  lemma ExactCappedOnce(duration: int, factor: real, cap: real, k: nat)
    requires factor >= 1.0 && cap >= 0.0 && k >= 1
    ensures ExactAfter(duration, factor, cap, k) == CappedReal(Exact(duration, factor, k), cap)
  {
    UpperStaysFrom(cap, factor);
    RepeatCapped(cap, Upper(factor), duration as real, k);
    AsRepeats(duration, factor, k);
  }

  // min(duration * factor^k, cap)
  lemma ExactClosedForm(duration: int, factor: real, cap: real, k: nat)
    requires factor >= 1.0 && cap >= 0.0 && k >= 1
    ensures ExactAfter(duration, factor, cap, k) == CappedReal(Pow(factor, k) * duration as real, cap)
  {
    ExactCappedOnce(duration, factor, cap, k);
    ExactIsPower(duration, factor, k);
  }

  lemma CapKeepsOrder(low: real, d: int, high: real, cap: int)
    requires low <= d as real <= high
    ensures CappedReal(low, cap as real) <= Capped(d, cap) as real <= CappedReal(high, cap as real)
  {
  }

  // The program rounds and truncates at every step. Its waits lie between the exact
  // ones for a factor larger by rounding, and those for one smaller by it with one
  // subtracted at every step, both capped.
  lemma TruncatedWaits(duration: int, factor: real, cap: int, k: nat)
    requires duration > 0 && Exactly(duration) && factor >= 1.0 && cap >= 0 && Exactly(cap) && k >= 1
    ensures CappedReal(Lowest(duration, Low(factor), k), cap as real)
            <= DurationAfter(duration, factor, cap, k) as real
            <= ExactAfter(duration, High(factor), cap as real, k)
  {
    ExactCappedOnce(duration, High(factor), cap as real, k);
    CappedOnce(duration, factor, cap, k);
    IteratedBounds(duration, factor, k);
    CapKeepsOrder(Lowest(duration, Low(factor), k), Iterated(duration, factor, k), Exact(duration, High(factor), k),
                  cap);
  }

  // Creating a stream is retried with a cap of 5 nanoseconds (deleting it, with 5
  // seconds): all four waits together take 20 nanoseconds.
  lemma CreationHardlyWaits(k: nat)
    requires k >= 1
    ensures DurationAfter(1_000_000_000, 1.5, 5, k) == 5
  {
    SmallIsExact(5);
    SmallIsExact(1_000_000_000);
    CappedOnce(1_000_000_000, 1.5, 5, k);
    IteratedGrows(1_000_000_000, 1.5, 0, k);
  }
}
