// How the ramp-up raises the publishers' rates, and how each publisher's ticker
// follows its own, with the two running side by side.
module RampUp {
  import opened Sequences
  import opened Float64
  import opened Scaling

  const SECOND := 1_000_000_000
  const MILLISECOND := 1_000_000

  function Max(a: int, b: int): int {
    if a < b then b else a
  }

  function Min(a: int, b: int): int {
    if a < b then a else b
  }

  // Publisher.SetRate
  function Clamped(rate: int, target: int): int {
    Min(Max(rate, 1), target)
  }

  // The float64 nearest to 0.01.
  const HUNDREDTH: real := 5764607523034235.0 / 576460752303423488.0

  // The share of the ramp-up that has passed, at least one hundredth.
  function Progress(elapsed: int, duration: int): (p: real)
    requires duration != 0
    ensures HUNDREDTH <= p <= 1.0
  {
    var share := Quotient(elapsed, duration);
    var capped := if share < 1.0 then share else 1.0;
    if capped < HUNDREDTH then HUNDREDTH else capped
  }

  // float64(elapsed) / float64(duration)
  function Quotient(elapsed: int, duration: int): real
    requires duration != 0
  {
    NotRoundedToZero(duration);
    Rounded(Rounded(elapsed as real) / Rounded(duration as real))
  }

  lemma NotRoundedToZero(i: int)
    requires i != 0
    ensures if i > 0 then Rounded(i as real) >= 1.0 else Rounded(i as real) <= -1.0
  {
    IntegersAreRepresented(1);
    IntegersAreRepresented(-1);
    if i > 0 {
      RoundedIsMonotone(1.0, i as real);
    } else {
      RoundedIsMonotone(i as real, -1.0);
    }
  }

  function TickRate(target: int, progress: real): int {
    RateFor(target, Share(target, progress))
  }

  // int32(progress * float64(target))
  function Share(target: int, progress: real): int {
    Trunc(Rounded(Times(Rounded(target as real), progress)))
  }

  function RateFor(target: int, share: int): int {
    Clamped(Max(1, Min(target, share)), target)
  }

  // --- Intervals ---

  datatype Pattern = Steady | Random | Unknown

  // A second, or with the random pattern between half and one and a half of it;
  // draw is rand.Intn(1000).
  function Period(pattern: Pattern, draw: int): (p: int)
    requires 0 <= draw < 1000
    ensures p > 0
  {
    if pattern.Random? then (draw + 500) * MILLISECOND else SECOND
  }

  function Interval(rate: int): (i: int)
    ensures i >= 0
  {
    if rate <= 0 then 0 else SECOND / rate
  }

  method CalculatePublishInterval(pattern: Pattern, rate: int, draw: int) returns (interval: Option<int>)
    requires 0 <= draw < 1000
    ensures interval.None? <==> rate <= 0 || pattern.Unknown?
    ensures interval.Some? ==>
      var period := if pattern.Random? then (draw + 500) * 1_000_000 else 1_000_000_000;
      interval.value * rate <= period < (interval.value + 1) * rate
    ensures interval.Some? ==> interval.value == Period(pattern, draw) / rate
  {
    if rate <= 0 {
      return None;
    }
    match pattern {
      case Steady => return Some(SECOND / rate);
      case Random =>
        var randomFactor := (draw + 500) * MILLISECOND;
        return Some(randomFactor / rate);
      case Unknown => return None;
    }
  }

  lemma MulStep(a: int, b: int, r: int)
    requires a <= b && r >= 0
    ensures a * r <= b * r
  {
  }

  // Whether a ticker can be set to every interval the pattern may yield; it
  // panics on one that is not positive.
  ghost predicate Armed(pattern: Pattern, rate: int)
    requires rate > 0
  {
    forall draw :: 0 <= draw < 1000 ==> Period(pattern, draw) / rate > 0
  }

  // So it can up to a rate of 10^9, or with the random pattern up to half of that.
  lemma ArmedIff(rate: int)
    requires rate > 0
    ensures Armed(Steady, rate) <==> rate <= SECOND
    ensures Armed(Random, rate) <==> rate <= 500 * MILLISECOND
  {
    forall pattern: Pattern, draw | 0 <= draw < 1000
      ensures Period(pattern, draw) / rate > 0 <==> rate <= Period(pattern, draw)
    {
      PositiveQuotient(Period(pattern, draw), rate);
    }
    assert Period(Steady, 0) == SECOND && Period(Random, 0) == 500 * MILLISECOND;
  }

  lemma PositiveQuotient(second: int, rate: int)
    requires rate > 0 && second >= 0
    ensures second / rate > 0 <==> rate <= second
  {
    var q := second / rate;
    if q >= 1 {
      MulStep(1, q, rate);
    }
  }

  lemma FasterIsShorter(rate: int, rate': int)
    requires 0 < rate <= rate'
    ensures Interval(rate') <= Interval(rate)
  {
    var q, q' := SECOND / rate, SECOND / rate';
    if q < q' {
      MulStep(q + 1, q', rate);
      assert q' * rate <= q' * rate' by { MulStep(rate, rate', q'); }
    }
  }

  // --- One publisher and the manager, step by step ---

  // The publisher's rate, and its loop's ticker interval and lastRate. armed is the
  // rate the ticker was last set for.
  datatype State = State(rate: int, interval: int, armed: int, last: int)

  const FRESH := State(0, 0, 0, 0)

  type Draw = d: int | 0 <= d < 1000

  datatype Event =
    // The publisher stores its first rate, reads the rate for its ticker and
    // reads it again as lastRate, and then wakes up at every tick.
    | StoreOne
    | ReadForTicker(draw: Draw)
    | ReadForLast
    | Wake(draw: Draw)
    // The manager's ticker, some time after its start, and its completion.
    | Tick(elapsed: int)
    | Full

  datatype Setting = Setting(pattern: Pattern, target: int, duration: int)

  function SetTicker(c: Setting, s: State, draw: Draw): State {
    if s.rate <= 0 || c.pattern.Unknown? then s
    else s.(interval := Period(c.pattern, draw) / s.rate, armed := s.rate)
  }

  function Step(c: Setting, s: State, e: Event): State {
    match e
    case StoreOne => s.(rate := 1)
    case ReadForTicker(draw) => SetTicker(c, s, draw)
    case ReadForLast => s.(last := s.rate)
    case Wake(draw) => if s.rate == s.last then s else SetTicker(c, s, draw).(last := s.rate)
    case Tick(elapsed) =>
      if c.duration == 0 then s else s.(rate := TickRate(c.target, Progress(elapsed, c.duration)))
    case Full => s.(rate := Clamped(c.target, c.target))
  }

  function After(c: Setting, events: seq<Event>, k: nat): State
    requires k <= |events|
  {
    if k == 0 then FRESH else Step(c, After(c, events, k - 1), events[k - 1])
  }

  // The manager only ticks when there is a ramp-up, by a monotone clock, and does
  // nothing after completion.
  ghost predicate Orderly(events: seq<Event>, duration: int) {
    && (forall i :: 0 <= i < |events| && events[i].Tick? ==> duration != 0 && events[i].elapsed >= 0)
    && (forall i, j :: 0 <= i < j < |events| && events[i].Tick? && events[j].Tick? ==>
          events[i].elapsed <= events[j].elapsed)
    && (forall i, j :: 0 <= i < j < |events| && events[i].Full? ==> !events[j].Tick? && !events[j].Full?)
  }

  // The publisher's first steps, each once and in this order.
  predicate Begins(events: seq<Event>, store: int, ticker: int, last: int) {
    && 0 <= store < ticker < last < |events|
    && forall i :: 0 <= i < |events| ==>
         && (events[i].StoreOne? <==> i == store) && (events[i].ReadForTicker? <==> i == ticker)
         && (events[i].ReadForLast? <==> i == last) && (events[i].Wake? ==> last < i)
  }

  lemma ProgressIsMonotone(e: int, e': int, duration: int)
    requires 0 <= e <= e' && duration != 0
    ensures Progress(e, duration) <= Progress(e', duration)
  {
    var d, x, x' := Rounded(duration as real), Rounded(e as real), Rounded(e' as real);
    NotRoundedToZero(duration);
    RoundedIsMonotone(0.0, e as real);
    RoundedIsMonotone(e as real, e' as real);
    if duration > 0 {
      QuotientIsMonotone(x, x', d);
      RoundedIsMonotone(x / d, x' / d);
    } else {
      NegativeQuotient(x, d);
      NegativeQuotient(x', d);
      IntegersAreRepresented(0);
      RoundedIsMonotone(x / d, 0.0);
      RoundedIsMonotone(x' / d, 0.0);
    }
  }

  lemma QuotientIsMonotone(x: real, y: real, d: real)
    requires x <= y && d > 0.0
    ensures x / d <= y / d
  {
  }

  lemma NegativeQuotient(x: real, d: real)
    requires x >= 0.0 && d < 0.0
    ensures x / d <= 0.0
  {
  }

  lemma ShareIsMonotone(target: int, p: real, p': real)
    requires target >= 1 && 0.0 <= p <= p'
    ensures Share(target, p) <= Share(target, p')
  {
    var t := Rounded(target as real);
    NotRoundedToZero(target);
    TimesNonNegative(t, p);
    FactorsInOrder(t, p, p');
    RoundedNonNegative(Times(t, p));
    RoundedIsMonotone(Times(t, p), Times(t, p'));
    TruncIsMonotone(Rounded(Times(t, p)), Rounded(Times(t, p')));
  }

  lemma FactorsInOrder(t: real, p: real, p': real)
    requires t >= 0.0 && p <= p'
    ensures Times(t, p) <= Times(t, p')
  {
    MulMono(t, p, p');
  }

  lemma RateForIsMonotone(target: int, m: int, n: int)
    requires target >= 1 && m <= n
    ensures 1 <= RateFor(target, m) <= RateFor(target, n) <= target
  {
  }

  lemma TickRateIsMonotone(target: int, p: real, p': real)
    requires target >= 1 && 0.0 <= p <= p' <= 1.0
    ensures 1 <= TickRate(target, p) <= TickRate(target, p') <= target
  {
    ShareIsMonotone(target, p, p');
    RateForIsMonotone(target, Share(target, p), Share(target, p'));
  }

  // While the manager has not got past elapsed, the rate is not above that time's.
  lemma {:induction false} RateSoFar(c: Setting, events: seq<Event>, store: int, k: nat, elapsed: int)
    requires c.target >= 1 && c.duration != 0 && elapsed >= 0
    requires 0 <= store < k <= |events| && events[store].StoreOne?
    requires forall i :: 0 <= i < k && events[i].Tick? ==> 0 <= events[i].elapsed <= elapsed
    requires forall i :: 0 <= i < k ==> !events[i].Full?
    ensures 1 <= After(c, events, k).rate <= TickRate(c.target, Progress(elapsed, c.duration)) <= c.target
  {
    var p := Progress(elapsed, c.duration);
    TickRateIsMonotone(c.target, p, p);
    var e := events[k - 1];
    if e.Tick? {
      ProgressIsMonotone(e.elapsed, elapsed, c.duration);
      TickRateIsMonotone(c.target, Progress(e.elapsed, c.duration), p);
    } else if !e.StoreOne? {
      RateSoFar(c, events, store, k - 1, elapsed);
    }
  }

  lemma {:induction false} RateInRange(c: Setting, events: seq<Event>, store: int, k: nat)
    requires c.target >= 1 && 0 <= store < k <= |events| && events[store].StoreOne?
    ensures 1 <= After(c, events, k).rate <= c.target
  {
    var e := events[k - 1];
    if e.Tick? && c.duration != 0 {
      var p := Progress(e.elapsed, c.duration);
      TickRateIsMonotone(c.target, p, p);
    } else if !e.StoreOne? && !e.Full? {
      RateInRange(c, events, store, k - 1);
    }
  }

  // Once the publisher has stored its first rate, the rate stays between 1 and the
  // target and never drops.
  lemma {:induction false} RateNeverDrops(c: Setting, events: seq<Event>, store: int, ticker: int,
                                          last: int, j: nat, k: nat)
    requires c.target >= 1 && Orderly(events, c.duration) && Begins(events, store, ticker, last)
    requires store < j <= k <= |events|
    ensures 1 <= After(c, events, j).rate <= After(c, events, k).rate <= c.target
    decreases k
  {
    RateInRange(c, events, store, k);
    if j < k {
      RateNeverDrops(c, events, store, ticker, last, j, k - 1);
      var e := events[k - 1];
      if e.Tick? {
        RateSoFar(c, events, store, k - 1, e.elapsed);
      }
    } else {
      RateInRange(c, events, store, j);
    }
  }

  // A completed ramp-up leaves the publisher at its target exactly when its first
  // rate was stored before: otherwise that store undoes the completion, and the
  // rate stays 1.
  lemma CompletionReachesTarget(c: Setting, events: seq<Event>, store: int, ticker: int, last: int,
                                full: int)
    requires c.target >= 1 && Orderly(events, c.duration) && Begins(events, store, ticker, last)
    requires 0 <= full < |events| && events[full].Full?
    ensures After(c, events, |events|).rate == c.target <==> store < full || c.target == 1
  {
    RateSettles(c, events, store, ticker, last, full, |events|);
  }

  lemma {:induction false} RateSettles(c: Setting, events: seq<Event>, store: int, ticker: int,
                                       last: int, full: int, k: nat)
    requires c.target >= 1 && Orderly(events, c.duration) && Begins(events, store, ticker, last)
    requires 0 <= full < |events| && events[full].Full?
    requires store < k <= |events| && full < k
    ensures After(c, events, k).rate == if store < full then c.target else 1
  {
    if k - 1 != full && k - 1 != store {
      RateSettles(c, events, store, ticker, last, full, k - 1);
    }
  }

  // The publisher's ticker follows its rate. There is one exception: its start reads
  // the rate twice, first for the ticker and then for lastRate. When the rate it
  // ends with is already there at the second read, the ticker is never set again,
  // and keeps the interval of the rate of the first read.
  lemma TickerFollowsRate(c: Setting, events: seq<Event>, store: int, ticker: int, last: int)
    requires c.target >= 1 && Orderly(events, c.duration) && Begins(events, store, ticker, last)
    requires Last(events).Wake? && !c.pattern.Unknown?
    ensures var first := After(c, events, ticker).rate;
            var second := After(c, events, last).rate;
            var end := After(c, events, |events|);
            && end.last == end.rate
            && end.armed == (if second == end.rate then first else end.rate)
            && IsIntervalFor(c.pattern, end.armed, end.interval)
  {
    var first := After(c, events, ticker).rate;
    var second := After(c, events, last).rate;
    RateInRange(c, events, store, ticker);
    RateInRange(c, events, store, |events|);
    ArmedForItsRate(c, events, store, ticker, last, |events|);
    TickerSoFar(c, events, store, ticker, last, |events|);
  }

  lemma {:induction false} OneUntilFull(c: Setting, events: seq<Event>, store: int, k: nat)
    requires 0 <= store < k <= |events| && events[store].StoreOne?
    requires forall i :: 0 <= i < k ==> !events[i].Tick? && !events[i].Full?
    ensures After(c, events, k).rate == 1
  {
    if k - 1 > store {
      OneUntilFull(c, events, store, k - 1);
    }
  }

  // Without a ramp-up, the publisher ends up at its target rate with its ticker set
  // for it exactly when completion comes after its first rate is stored, and not
  // between its two reads.
  lemma FullRateWithoutRampUp(c: Setting, events: seq<Event>, store: int, ticker: int, last: int, full: int)
    requires c.target >= 2 && c.duration == 0 && !c.pattern.Unknown?
    requires Orderly(events, 0) && Begins(events, store, ticker, last)
    requires 0 <= full < |events| && events[full].Full? && Last(events).Wake?
    ensures var end := After(c, events, |events|);
            end.rate == c.target && end.armed == c.target <==> store < full && !(ticker < full < last)
  {
    RateSettles(c, events, store, ticker, last, full, |events|);
    TickerFollowsRate(c, events, store, ticker, last);
    if full < last {
      RateSettles(c, events, store, ticker, last, full, last);
    } else {
      OneUntilFull(c, events, store, last);
    }
    if full < ticker {
      RateSettles(c, events, store, ticker, last, full, ticker);
    } else {
      OneUntilFull(c, events, store, ticker);
    }
  }

  // Completion before the publisher begins: its rate stays 1.
  lemma CompletedTooEarly()
    ensures var c := Setting(Steady, 10, 0);
            var events := [Full, StoreOne, ReadForTicker(0), ReadForLast, Wake(0)];
            && Orderly(events, 0) && Begins(events, 1, 2, 3)
            && After(c, events, 5).rate == 1 && After(c, events, 5).armed == 1
  {
    var c := Setting(Steady, 10, 0);
    var events := [Full, StoreOne, ReadForTicker(0), ReadForLast, Wake(0)];
    assert Begins(events, 1, 2, 3);
    RateSettles(c, events, 1, 2, 3, 0, 5);
    RateSettles(c, events, 1, 2, 3, 0, 3);
    RateSettles(c, events, 1, 2, 3, 0, 2);
    TickerFollowsRate(c, events, 1, 2, 3);
  }

  // What the pattern may set a ticker to for the rate; for the steady pattern that is
  // the one interval.
  ghost predicate IsIntervalFor(pattern: Pattern, rate: int, interval: int) {
    rate > 0 && exists draw: Draw :: interval == Period(pattern, draw) / rate
  }

  lemma SteadyInterval(rate: int, interval: int)
    requires IsIntervalFor(Steady, rate, interval)
    ensures interval == Interval(rate)
  {
  }

  lemma {:induction false} ArmedForItsRate(c: Setting, events: seq<Event>, store: int, ticker: int, last: int, k: nat)
    requires c.target >= 1 && !c.pattern.Unknown? && Begins(events, store, ticker, last)
    requires ticker < k <= |events|
    ensures IsIntervalFor(c.pattern, After(c, events, k).armed, After(c, events, k).interval)
  {
    var s, e := After(c, events, k - 1), events[k - 1];
    RateInRange(c, events, store, k - 1);
    if k - 1 == ticker {
      assert Step(c, s, e).interval == Period(c.pattern, e.draw) / s.rate;
    } else {
      ArmedForItsRate(c, events, store, ticker, last, k - 1);
      if e.Wake? && s.rate != s.last {
        assert Step(c, s, e).interval == Period(c.pattern, e.draw) / s.rate;
      }
    }
  }

  // The rates of the two reads, and of the last tick since.
  predicate Follows(s: State, first: int, second: int) {
    if s.last == second then first > 0 && s.armed == first
    else second < s.last && s.last > 0 && s.armed == s.last
  }

  lemma FollowsStep(c: Setting, s: State, e: Event, first: int, second: int)
    requires Follows(s, first, second) && 0 < s.last <= s.rate <= Step(c, s, e).rate
    requires !e.StoreOne? && !e.ReadForTicker? && !e.ReadForLast? && !c.pattern.Unknown?
    ensures Follows(Step(c, s, e), first, second)
    ensures 0 < Step(c, s, e).last <= Step(c, s, e).rate
  {
  }

  lemma FirstTurn(c: Setting, events: seq<Event>, store: int, ticker: int, last: int)
    requires !c.pattern.Unknown?
    requires c.target >= 1 && Orderly(events, c.duration) && Begins(events, store, ticker, last)
    ensures var s := After(c, events, last + 1);
            var second := After(c, events, last).rate;
            Follows(s, After(c, events, ticker).rate, second) && s.last == s.rate == second > 0
  {
    RateInRange(c, events, store, last);
    IntervalIsKept(c, events, store, ticker, last, last);
  }

  lemma TickerSoFar(c: Setting, events: seq<Event>, store: int, ticker: int, last: int, k: nat)
    requires !c.pattern.Unknown?
    requires c.target >= 1 && Orderly(events, c.duration) && Begins(events, store, ticker, last)
    requires last < k <= |events|
    ensures Follows(After(c, events, k), After(c, events, ticker).rate, After(c, events, last).rate)
  {
    FirstTurn(c, events, store, ticker, last);
    KeepsFollowing(c, events, store, ticker, last, k, After(c, events, ticker).rate, After(c, events, last).rate);
  }

  lemma {:induction false} KeepsFollowing(c: Setting, events: seq<Event>, store: int, ticker: int, last: int, k: nat,
                                          first: int, second: int)
    requires !c.pattern.Unknown?
    requires c.target >= 1 && Orderly(events, c.duration) && Begins(events, store, ticker, last)
    requires last < k <= |events|
    requires var s := After(c, events, last + 1); Follows(s, first, second) && 0 < s.last <= s.rate
    ensures var s := After(c, events, k); Follows(s, first, second) && 0 < s.last <= s.rate
  {
    if k - 1 > last {
      KeepsFollowing(c, events, store, ticker, last, k - 1, first, second);
      RateNeverDrops(c, events, store, ticker, last, k - 1, k);
      FollowsStep(c, After(c, events, k - 1), events[k - 1], first, second);
    }
  }

  lemma {:induction false} IntervalIsKept(c: Setting, events: seq<Event>, store: int, ticker: int,
                                          last: int, k: nat)
    requires !c.pattern.Unknown?
    requires c.target >= 1 && Orderly(events, c.duration) && Begins(events, store, ticker, last)
    requires ticker < k <= last
    ensures var first := After(c, events, ticker).rate;
            first > 0 && After(c, events, k).armed == first
  {
    RateInRange(c, events, store, ticker);
    if k - 1 > ticker {
      IntervalIsKept(c, events, store, ticker, last, k - 1);
    }
  }

  // --- The publisher and the manager ---

  class Publisher {
    const targetRate: int
    const pattern: Pattern
    var currentRate: int
    // The ticker and lastRate of the running loop.
    var interval: int
    ghost var armed: int
    var lastRate: int

    constructor (publishRate: int, pattern: Pattern)
      ensures targetRate == publishRate && this.pattern == pattern && Current() == FRESH
    {
      targetRate, this.pattern := publishRate, pattern;
      currentRate, interval, armed, lastRate := 0, 0, 0, 0;
    }

    ghost function Current(): State
      reads this
    {
      State(currentRate, interval, armed, lastRate)
    }

    // The publisher in a run with this ramp-up.
    function In(duration: int): Setting {
      Setting(pattern, targetRate, duration)
    }

    method SetRate(rate: int)
      modifies this`currentRate
      ensures currentRate == Clamped(rate, targetRate)
      ensures targetRate >= 1 ==>
        currentRate == if rate < 1 then 1 else if rate > targetRate then targetRate else rate
    {
      var r := Max(rate, 1);
      r := Min(r, targetRate);
      currentRate := r;
    }

    // The steps of Start, between which the manager may set the rate.
    method StoreFirstRate()
      modifies this`currentRate
      ensures forall duration :: Current() == Step(In(duration), old(Current()), StoreOne)
    {
      currentRate := 1;
    }

    method NewTicker(draw: Draw) returns (ok: bool)
      modifies this`interval, this`armed
      ensures ok <==> currentRate > 0 && !pattern.Unknown?
      ensures forall duration :: Current() == Step(In(duration), old(Current()), ReadForTicker(draw))
    {
      var i := CalculatePublishInterval(pattern, currentRate, draw);
      if i.None? {
        return false;
      }
      interval, armed := i.value, currentRate;
      return true;
    }

    method NoteRate()
      modifies this`lastRate
      ensures forall duration :: Current() == Step(In(duration), old(Current()), ReadForLast)
    {
      lastRate := currentRate;
    }

    // One turn of the loop, after the burst.
    method FollowRate(draw: Draw)
      modifies this`lastRate, this`interval, this`armed
      ensures forall duration :: Current() == Step(In(duration), old(Current()), Wake(draw))
      ensures lastRate == currentRate
    {
      var rate := currentRate;
      if rate != lastRate {
        lastRate := rate;
        var i := CalculatePublishInterval(pattern, rate, draw);
        if i.Some? {
          interval, armed := i.value, rate;
        }
      }
    }
  }

  method SetAllPublishersToFullRate(publishers: seq<Publisher>)
    modifies publishers`currentRate
    ensures forall p :: p in publishers ==> p.currentRate == Clamped(p.targetRate, p.targetRate)
  {
    for i := 0 to |publishers|
      invariant forall p :: p in publishers[..i] ==> p.currentRate == Clamped(p.targetRate, p.targetRate)
    {
      publishers[i].SetRate(publishers[i].targetRate);
    }
  }

  method UpdatePublisherRates(publishers: seq<Publisher>, progress: real)
    modifies publishers`currentRate
    ensures forall p :: p in publishers ==> p.currentRate == TickRate(p.targetRate, progress)
  {
    for i := 0 to |publishers|
      invariant forall p :: p in publishers[..i] ==> p.currentRate == TickRate(p.targetRate, progress)
    {
      var targetRate := publishers[i].targetRate;
      var currentRate := Max(1, Min(targetRate, Share(targetRate, progress)));
      publishers[i].SetRate(currentRate);
    }
  }

  // Which arm of the manager's select is taken.
  datatype Wakeup = ContextDone | TimerFired | TickerFired(elapsed: int)

  datatype Outcome = Completed | Cancelled | StillRamping

  // wakeups is as much of the run as has been observed. The rates are those of the
  // latest tick, until completion sets the targets; cancellation leaves them.
  method StartRampUp(publishers: seq<Publisher>, duration: int, wakeups: seq<Wakeup>)
    returns (outcome: Outcome, used: nat)
    modifies publishers`currentRate
    ensures used <= |wakeups|
    ensures duration == 0 ==> outcome.Completed? && used == 0
    ensures duration != 0 ==>
      && (forall i :: 0 <= i < used ==> wakeups[i].TickerFired?)
      && (outcome.StillRamping? <==> used == |wakeups|)
      && (outcome.Completed? <==> used < |wakeups| && wakeups[used].TimerFired?)
    ensures forall p :: p in publishers ==>
      p.currentRate == if outcome.Completed? then Clamped(p.targetRate, p.targetRate)
                       else if used == 0 then old(p.currentRate)
                       else TickRate(p.targetRate, Progress(wakeups[used - 1].elapsed, duration))
  {
    used := 0;
    if duration == 0 {
      SetAllPublishersToFullRate(publishers);
      return Completed, used;
    }
    while used < |wakeups|
      invariant used <= |wakeups|
      invariant forall i :: 0 <= i < used ==> wakeups[i].TickerFired?
      invariant used == 0 ==> forall p :: p in publishers ==> p.currentRate == old(p.currentRate)
      invariant used > 0 ==> forall p :: p in publishers ==>
        p.currentRate == TickRate(p.targetRate, Progress(wakeups[used - 1].elapsed, duration))
    {
      match wakeups[used] {
        case ContextDone =>
          return Cancelled, used;
        case TimerFired =>
          SetAllPublishersToFullRate(publishers);
          return Completed, used;
        case TickerFired(elapsed) =>
          UpdatePublisherRates(publishers, Progress(elapsed, duration));
      }
      used := used + 1;
    }
    return StillRamping, used;
  }

  // --- The two side by side ---

  // Runs a publisher and the manager's updates along the events.
  method RunAlong(p: Publisher, duration: int, events: seq<Event>)
    requires p.Current() == FRESH
    requires forall i :: 0 <= i < |events| && events[i].Tick? ==> duration != 0
    modifies p
    ensures p.Current() == After(p.In(duration), events, |events|)
  {
    for i := 0 to |events|
      invariant p.Current() == After(p.In(duration), events, i)
    {
      match events[i] {
        case StoreOne => p.StoreFirstRate();
        case ReadForTicker(draw) => var _ := p.NewTicker(draw);
        case ReadForLast => p.NoteRate();
        case Wake(draw) => p.FollowRate(draw);
        case Tick(elapsed) => UpdatePublisherRates([p], Progress(elapsed, duration)); assert p in [p];
        case Full => SetAllPublishersToFullRate([p]); assert p in [p];
      }
    }
  }

  function ManagerPart(): Event -> Option<Event> {
    (e: Event) => if e.Tick? || e.Full? then Some(e) else None
  }

  function TicksOf(wakeups: seq<Wakeup>, used: nat): seq<Event>
    requires used <= |wakeups| && forall i :: 0 <= i < used ==> wakeups[i].TickerFired?
  {
    seq(used, i requires 0 <= i < used => Tick(wakeups[i].elapsed))
  }

  // What the manager does in a run of StartRampUp.
  function ManagerEvents(wakeups: seq<Wakeup>, used: nat, outcome: Outcome): seq<Event>
    requires used <= |wakeups| && forall i :: 0 <= i < used ==> wakeups[i].TickerFired?
  {
    if outcome.Completed? then TicksOf(wakeups, used) + [Full] else TicksOf(wakeups, used)
  }

  // The clock of the wake-ups.
  ghost predicate Monotone(wakeups: seq<Wakeup>) {
    && (forall i :: 0 <= i < |wakeups| && wakeups[i].TickerFired? ==> wakeups[i].elapsed >= 0)
    && forall i, j :: 0 <= i < j < |wakeups| && wakeups[i].TickerFired? && wakeups[j].TickerFired? ==>
         wakeups[i].elapsed <= wakeups[j].elapsed
  }

  // Whatever a publisher does in between, a run of StartRampUp by a monotone clock
  // is orderly.
  lemma RampUpIsOrderly(events: seq<Event>, duration: int, wakeups: seq<Wakeup>, used: nat, outcome: Outcome)
    requires used <= |wakeups| && (forall i :: 0 <= i < used ==> wakeups[i].TickerFired?)
    requires Monotone(wakeups) && (duration == 0 ==> used == 0)
    requires Selected(events, ManagerPart()) == ManagerEvents(wakeups, used, outcome)
    ensures Orderly(events, duration)
  {
    TicksAreOrderly(wakeups, used, duration);
    FullEnds(TicksOf(wakeups, used), duration);
    OrderlyAround(events, duration);
  }

  lemma TicksAreOrderly(wakeups: seq<Wakeup>, used: nat, duration: int)
    requires used <= |wakeups| && (forall i :: 0 <= i < used ==> wakeups[i].TickerFired?)
    requires Monotone(wakeups) && (duration == 0 ==> used == 0)
    ensures Orderly(TicksOf(wakeups, used), duration)
    ensures forall i :: 0 <= i < used ==> TicksOf(wakeups, used)[i].Tick?
  {
  }

  lemma FullEnds(ticks: seq<Event>, duration: int)
    requires Orderly(ticks, duration) && forall i :: 0 <= i < |ticks| ==> ticks[i].Tick?
    ensures Orderly(ticks + [Full], duration)
  {
  }

  lemma {:induction false} OrderlyAround(events: seq<Event>, duration: int)
    requires Orderly(Selected(events, ManagerPart()), duration)
    ensures Orderly(events, duration)
  {
    if events == [] {
    } else {
      var init, e := events[..|events| - 1], Last(events);
      var before := Selected(init, ManagerPart());
      OrderlyPrefix(before, Selected(events, ManagerPart()), duration);
      OrderlyAround(init, duration);
      assert events == init + [e];
      if ManagerPart()(e).Some? {
        OrderlySnoc(init, e, duration);
      }
    }
  }

  lemma OrderlyPrefix(before: seq<Event>, events: seq<Event>, duration: int)
    requires Orderly(events, duration) && before <= events
    ensures Orderly(before, duration)
  {
    assert forall i :: 0 <= i < |before| ==> before[i] == events[i];
  }

  lemma OrderlySnoc(init: seq<Event>, e: Event, duration: int)
    requires Orderly(init, duration) && ManagerPart()(e).Some?
    requires Orderly(Selected(init, ManagerPart()) + [e], duration)
    ensures Orderly(init + [e], duration)
  {
    var before := Selected(init, ManagerPart());
    var after := before + [e];
    forall i | 0 <= i < |init| && (init[i].Tick? || init[i].Full?)
      ensures init[i].Full? ==> !e.Tick? && !e.Full?
      ensures init[i].Tick? && e.Tick? ==> init[i].elapsed <= e.elapsed
    {
      SelectedHas(init, ManagerPart(), i);
      var k :| 0 <= k < |before| && before[k] == init[i];
      assert after[k] == init[i] && after[|before|] == e;
    }
    assert after[|before|] == e;
  }
}
