// The statistics collector. Every method is treated as one atomic step, although
// recording latencies and errors takes other locks than collecting does.
module CollectorModel {
  import opened Sequences
  import opened StatsModel
  import opened ErrorWindow
  import opened Float64
  import opened LatencySummary

  // The parts of the load test specification the collector looks at.
  datatype Limits = Limits(hash: string, maxLines: int, maxBytes: int)

  datatype Event =
    | Publish
    | Consume
    | PublishError(e: ErrorText)
    | ConsumeError(e: ErrorText)
    | OtherError(e: ErrorText)
    | Latency(nanos: int)
    | Collected(stats: Stats)

  predicate IsError(ev: Event) {
    ev.PublishError? || ev.ConsumeError? || ev.OtherError?
  }

  // An unsigned 64-bit counter after n increments.
  function Uint64(n: nat): nat {
    if n < TWO_64 then n else Uint64(n - TWO_64)
  }

  // atomic.Uint64.Add(1)
  function Increment(n: nat): nat {
    if n == TWO_64 - 1 then 0 else n + 1
  }

  lemma {:induction false} Uint64Increments(n: nat)
    ensures Uint64(n) < TWO_64 && Increment(Uint64(n)) == Uint64(n + 1)
  {
    if n >= TWO_64 {
      Uint64Increments(n - TWO_64);
    }
  }

  // Shifting by 2^64 does not change a wrapped number.
  lemma WrapShift(i: int)
    ensures Wrap64(i - TWO_64) == Wrap64(i) == Wrap64(i + TWO_64)
  {
  }

  // The difference of two counters as signed 64-bit numbers.
  lemma {:induction false} DifferenceWraps(m: nat, n: nat)
    ensures Wrap64(Uint64(m) - Uint64(n)) == Wrap64(m - n)
    decreases m + n
  {
    if m >= TWO_64 {
      DifferenceWraps(m - TWO_64, n);
      WrapShift(m - n);
    } else if n >= TWO_64 {
      DifferenceWraps(m, n - TWO_64);
      WrapShift(m - n);
    }
  }

  // --- What a log of events since SetConfig amounts to ---

  function Published(log: seq<Event>): nat {
    if log == [] then 0 else Published(log[..|log| - 1]) + (if Last(log).Publish? then 1 else 0)
  }

  function Consumed(log: seq<Event>): nat {
    if log == [] then 0 else Consumed(log[..|log| - 1]) + (if Last(log).Consume? then 1 else 0)
  }

  function PublishErrors(log: seq<Event>): nat {
    if log == [] then 0 else PublishErrors(log[..|log| - 1]) + (if Last(log).PublishError? then 1 else 0)
  }

  function ConsumeErrors(log: seq<Event>): nat {
    if log == [] then 0 else ConsumeErrors(log[..|log| - 1]) + (if Last(log).ConsumeError? then 1 else 0)
  }

  function ErrorOf(): Event -> Option<ErrorText> {
    (ev: Event) => if IsError(ev) then Some(ev.e) else None
  }

  function LatencyOf(): Event -> Option<int> {
    (ev: Event) => if ev.Latency? then Some(ev.nanos) else None
  }

  // What the events since the last snapshot recorded.
  function Since<T>(log: seq<Event>, item: Event -> Option<T>): seq<T> {
    if log == [] || Last(log).Collected? then [] else
    var before := Since(log[..|log| - 1], item);
    if item(Last(log)).None? then before else before + [item(Last(log)).value]
  }

  function ErrorsSince(log: seq<Event>): seq<ErrorText> {
    Since(log, ErrorOf())
  }

  function LatenciesSince(log: seq<Event>): seq<int> {
    Since(log, LatencyOf())
  }

  lemma LogSnoc(log: seq<Event>, ev: Event)
    ensures Published(log + [ev]) == Published(log) + (if ev.Publish? then 1 else 0)
    ensures Consumed(log + [ev]) == Consumed(log) + (if ev.Consume? then 1 else 0)
    ensures PublishErrors(log + [ev]) == PublishErrors(log) + (if ev.PublishError? then 1 else 0)
    ensures ConsumeErrors(log + [ev]) == ConsumeErrors(log) + (if ev.ConsumeError? then 1 else 0)
    ensures ErrorsSince(log + [ev]) ==
            if ev.Collected? then [] else if IsError(ev) then ErrorsSince(log) + [ev.e] else ErrorsSince(log)
    ensures LatenciesSince(log + [ev]) ==
            if ev.Collected? then [] else if ev.Latency? then LatenciesSince(log) + [ev.nanos] else LatenciesSince(log)
  {
    assert (log + [ev])[..|log|] == log;
  }

  // The limits in force.
  datatype Bounds = Bounds(maxLines: int, maxBytes: int, maxSamples: nat)

  // A snapshot taken after the events of before.
  ghost predicate Describes(stats: Stats, before: seq<Event>, b: Bounds) {
    && stats.published == Uint64(Published(before))
    && stats.consumed == Uint64(Consumed(before))
    && stats.publishErrors == Uint64(PublishErrors(before))
    && stats.consumeErrors == Uint64(ConsumeErrors(before))
    && stats.pendingMessages == Wrap64(Published(before) - Consumed(before))
    && stats.latency == Summary(LastN(LatenciesSince(before), b.maxSamples))
    && stats.errors == Window(ErrorsSince(before), b.maxLines, b.maxBytes)
  }

  ghost predicate AllDescribed(log: seq<Event>, b: Bounds) {
    forall i :: 0 <= i < |log| && log[i].Collected? ==> Describes(log[i].stats, log[..i], b)
  }

  // The values of the collector's fields.
  datatype View = View(published: nat, consumed: nat, publishErrors: nat, consumeErrors: nat,
                       errors: seq<ErrorText>, latencies: seq<int>)

  // The fields are what the events since SetConfig make them, and every snapshot
  // taken on the way was faithful.
  ghost predicate Matches(v: View, log: seq<Event>, b: Bounds) {
    CountersMatch(v, log) && WindowsMatch(v, log, b) && AllDescribed(log, b)
  }

  predicate CountersMatch(v: View, log: seq<Event>) {
    && v.published == Uint64(Published(log))
    && v.consumed == Uint64(Consumed(log))
    && v.publishErrors == Uint64(PublishErrors(log))
    && v.consumeErrors == Uint64(ConsumeErrors(log))
  }

  predicate WindowsMatch(v: View, log: seq<Event>, b: Bounds) {
    && v.errors == Window(ErrorsSince(log), b.maxLines, b.maxBytes)
    && (b.maxLines < 1 ==> ErrorsSince(log) == [])
    && v.latencies == LastN(LatenciesSince(log), b.maxSamples)
  }

  lemma DescribedSnoc(log: seq<Event>, ev: Event, b: Bounds)
    requires AllDescribed(log, b)
    requires ev.Collected? ==> Describes(ev.stats, log, b)
    ensures AllDescribed(log + [ev], b)
  {
    var all := log + [ev];
    forall i | 0 <= i < |all| && all[i].Collected? ensures Describes(all[i].stats, all[..i], b) {
      assert all[..i] == log[..i];
      assert log[..|log|] == log;
    }
  }

  lemma AfterPublish(v: View, log: seq<Event>, b: Bounds)
    requires Matches(v, log, b)
    ensures Matches(v.(published := Increment(v.published)), log + [Publish], b)
  {
    LogSnoc(log, Publish);
    DescribedSnoc(log, Publish, b);
    Uint64Increments(Published(log));
  }

  lemma AfterConsume(v: View, log: seq<Event>, b: Bounds)
    requires Matches(v, log, b)
    ensures Matches(v.(consumed := Increment(v.consumed)), log + [Consume], b)
  {
    LogSnoc(log, Consume);
    DescribedSnoc(log, Consume, b);
    Uint64Increments(Consumed(log));
  }

  lemma AfterLatency(v: View, log: seq<Event>, b: Bounds, nanos: int)
    requires Matches(v, log, b)
    ensures Matches(v.(latencies := LastN(v.latencies + [nanos], b.maxSamples)), log + [Latency(nanos)], b)
  {
    LogSnoc(log, Latency(nanos));
    DescribedSnoc(log, Latency(nanos), b);
    LastNAppend(LatenciesSince(log), nanos, b.maxSamples);
  }

  // What recording an error makes of the fields.
  function WithError(v: View, ev: Event, b: Bounds): View
    requires IsError(ev) && b.maxLines >= 1
  {
    v.(errors := Evicted(v.errors, ev.e, b.maxLines, b.maxBytes) + [ev.e],
       publishErrors := if ev.PublishError? then Increment(v.publishErrors) else v.publishErrors,
       consumeErrors := if ev.ConsumeError? then Increment(v.consumeErrors) else v.consumeErrors)
  }

  lemma CountersAfterError(v: View, log: seq<Event>, b: Bounds, ev: Event)
    requires CountersMatch(v, log) && IsError(ev) && b.maxLines >= 1
    ensures CountersMatch(WithError(v, ev, b), log + [ev])
  {
    LogSnoc(log, ev);
    Uint64Increments(PublishErrors(log));
    Uint64Increments(ConsumeErrors(log));
  }

  lemma WindowsAfterError(v: View, log: seq<Event>, b: Bounds, ev: Event)
    requires WindowsMatch(v, log, b) && IsError(ev) && b.maxLines >= 1
    ensures WindowsMatch(WithError(v, ev, b), log + [ev], b)
  {
    LogSnoc(log, ev);
    EvictionAdvancesWindow(ErrorsSince(log), ev.e, b.maxLines, b.maxBytes);
  }

  lemma AfterError(v: View, log: seq<Event>, b: Bounds, ev: Event)
    requires Matches(v, log, b) && IsError(ev) && b.maxLines >= 1
    ensures Matches(WithError(v, ev, b), log + [ev], b)
  {
    CountersAfterError(v, log, b, ev);
    WindowsAfterError(v, log, b, ev);
    DescribedSnoc(log, ev, b);
  }

  function SnapshotOf(v: View, now: int): Stats {
    Stats(now, v.published, v.consumed, v.publishErrors, v.consumeErrors, Wrap64(v.published - v.consumed),
          Summary(v.latencies), v.errors)
  }

  function FailureStats(e: ErrorText, now: int): Stats {
    Stats(now, 0, 0, 0, 0, 0, NO_LATENCY, [e])
  }

  lemma NothingRecorded(b: Bounds)
    ensures Matches(View(0, 0, 0, 0, [], []), [], b)
  {
  }

  lemma SnapshotDescribes(v: View, log: seq<Event>, b: Bounds, now: int)
    requires Matches(v, log, b)
    ensures Describes(SnapshotOf(v, now), log, b)
  {
    DifferenceWraps(Published(log), Consumed(log));
  }

  lemma WindowIsBounded(v: View, log: seq<Event>, b: Bounds)
    requires Matches(v, log, b)
    ensures |v.latencies| <= b.maxSamples
  {
  }

  lemma AfterCollect(v: View, log: seq<Event>, b: Bounds, now: int)
    requires Matches(v, log, b)
    ensures Matches(v.(errors := [], latencies := []), log + [Collected(SnapshotOf(v, now))], b)
  {
    var ev := Collected(SnapshotOf(v, now));
    SnapshotDescribes(v, log, b, now);
    LogSnoc(log, ev);
    DescribedSnoc(log, ev, b);
  }

  class Collector {
    const hasStorage: bool
    var limits: Option<Limits>         // the specification; nil before SetConfig
    var published: nat
    var consumed: nat
    var publishErrors: nat
    var consumeErrors: nat
    var errors: seq<ErrorText>
    var latencies: seq<int>
    var maxLatencySamples: nat
    var written: seq<Op>               // handed to the storage
    ghost var log: seq<Event>          // since SetConfig

    function CurrentBounds(): Bounds
      reads this
    {
      if limits.Some? then Bounds(limits.value.maxLines, limits.value.maxBytes, maxLatencySamples)
      else Bounds(0, 0, maxLatencySamples)
    }

    // There is a storage, and a specification with a hash to file under.
    predicate Stores()
      reads this
    {
      hasStorage && limits.Some? && limits.value.hash != ""
    }

    ghost function Fields(): View
      reads this
    {
      View(published, consumed, publishErrors, consumeErrors, errors, latencies)
    }

    ghost predicate Valid()
      reads this
    {
      0 < maxLatencySamples <= MAX_SAMPLES && Matches(Fields(), log, CurrentBounds()) && FromCollector(written)
    }

    constructor (hasStorage: bool)
      ensures Valid() && log == [] && limits == None && written == [] && this.hasStorage == hasStorage
    {
      this.hasStorage := hasStorage;
      limits, published, consumed, publishErrors, consumeErrors := None, 0, 0, 0, 0;
      errors, latencies, maxLatencySamples, written, log := [], [], 10000, [], [];
    }

    // Whatever has been recorded before is dropped.
    method SetConfig(limits: Limits)
      requires FromCollector(written)
      modifies this
      ensures Valid() && log == [] && this.limits == Some(limits) && written == old(written)
      ensures maxLatencySamples == if 0 < limits.maxLines < 1000 then 10 * limits.maxLines else 10000
    {
      var samples := SampleLimit(limits.maxLines);
      this.limits, maxLatencySamples := Some(limits), samples;
      published, consumed, publishErrors, consumeErrors := 0, 0, 0, 0;
      latencies, errors, log := [], [], [];
      ghost var b := Bounds(limits.maxLines, limits.maxBytes, samples);
      NothingRecorded(b);
      assert Fields() == View(0, 0, 0, 0, [], []) && CurrentBounds() == b;
    }

    static method SampleLimit(maxLines: int) returns (n: nat)
      ensures n == if 0 < maxLines < 1000 then 10 * maxLines else 10000
    {
      n := 10000;
      if maxLines > 0 {
        n := if maxLines * 10 < 10000 then maxLines * 10 else 10000;
      }
    }

    method RecordPublish()
      requires Valid()
      modifies this`published, this`log
      ensures Valid() && log == old(log) + [Publish]
      ensures published == if old(published) == 0xFFFF_FFFF_FFFF_FFFF then 0 else old(published) + 1
    {
      AfterPublish(Fields(), log, CurrentBounds());
      published := Increment(published);
      log := log + [Publish];
    }

    method RecordConsume()
      requires Valid()
      modifies this`consumed, this`log
      ensures Valid() && log == old(log) + [Consume]
      ensures consumed == if old(consumed) == 0xFFFF_FFFF_FFFF_FFFF then 0 else old(consumed) + 1
    {
      AfterConsume(Fields(), log, CurrentBounds());
      consumed := Increment(consumed);
      log := log + [Consume];
    }

    // The three ways to record an error panic exactly when no specification has
    // been set or its max_lines is not positive, as when log_limits is omitted.
    method RecordPublishError(e: ErrorText) returns (panicked: bool)
      requires Valid()
      modifies this`publishErrors, this`errors, this`log
      ensures panicked <==> limits.None? || limits.value.maxLines < 1
      ensures !panicked ==> Valid() && log == old(log) + [PublishError(e)]
    {
      ghost var v := Fields();
      publishErrors := Increment(publishErrors);
      panicked := PushError(e);
      if !panicked {
        AfterError(v, log, CurrentBounds(), PublishError(e));
        assert Fields() == WithError(v, PublishError(e), CurrentBounds());
        log := log + [PublishError(e)];
      }
    }

    method RecordConsumeError(e: ErrorText) returns (panicked: bool)
      requires Valid()
      modifies this`consumeErrors, this`errors, this`log
      ensures panicked <==> limits.None? || limits.value.maxLines < 1
      ensures !panicked ==> Valid() && log == old(log) + [ConsumeError(e)]
    {
      ghost var v := Fields();
      consumeErrors := Increment(consumeErrors);
      panicked := PushError(e);
      if !panicked {
        AfterError(v, log, CurrentBounds(), ConsumeError(e));
        assert Fields() == WithError(v, ConsumeError(e), CurrentBounds());
        log := log + [ConsumeError(e)];
      }
    }

    method RecordError(e: ErrorText) returns (panicked: bool)
      requires Valid()
      modifies this`errors, this`log
      ensures panicked <==> limits.None? || limits.value.maxLines < 1
      ensures !panicked ==> Valid() && log == old(log) + [OtherError(e)]
    {
      ghost var v := Fields();
      panicked := PushError(e);
      if !panicked {
        AfterError(v, log, CurrentBounds(), OtherError(e));
        assert Fields() == WithError(v, OtherError(e), CurrentBounds());
        log := log + [OtherError(e)];
      }
    }

    // recordError
    method PushError(e: ErrorText) returns (panicked: bool)
      requires CurrentBounds().maxLines < 1 ==> errors == []
      modifies this`errors
      ensures panicked <==> CurrentBounds().maxLines < 1
      ensures !panicked ==>
        errors == Evicted(old(errors), e, CurrentBounds().maxLines, CurrentBounds().maxBytes) + [e]
    {
      if limits.None? {
        return true;  // the specification is a nil pointer
      }
      var maxLines, maxBytes := limits.value.maxLines, limits.value.maxBytes;
      if |errors| >= maxLines {
        if |errors| == 0 {
          return true;  // slice bounds out of range
        }
        errors := errors[1..];
      }
      ghost var start := errors;
      var currentSize := Measure();
      while currentSize + |e| > maxBytes && |errors| > 0
        invariant currentSize == Size(errors) && DropUntil(start, maxBytes - |e|) == DropUntil(errors, maxBytes - |e|)
        decreases |errors|
      {
        currentSize := currentSize - |errors[0]|;
        errors := errors[1..];
      }
      errors := errors + [e];
      return false;
    }

    // The loop that adds up the kept errors' lengths.
    method Measure() returns (size: nat)
      ensures size == Size(errors)
    {
      size := 0;
      for i := 0 to |errors|
        invariant size == Size(errors[..i])
      {
        SizeSnoc(errors[..i], errors[i]);
        assert errors[..i + 1] == errors[..i] + [errors[i]];
        size := size + |errors[i]|;
      }
      assert errors[..|errors|] == errors;
    }

    method RecordLatency(nanos: int)
      requires Valid()
      modifies this`latencies, this`log
      ensures Valid() && log == old(log) + [Latency(nanos)]
    {
      AfterLatency(Fields(), log, CurrentBounds(), nanos);
      latencies := latencies + [nanos];
      if |latencies| > maxLatencySamples {
        var overflow := |latencies| - maxLatencySamples;
        latencies := latencies[overflow..];
      }
      log := log + [Latency(nanos)];
    }

    // calculateLatencyStats, which leaves the samples sorted.
    method CalculateLatencyStats() returns (stats: LatencyStats)
      requires 0 < |latencies| <= MAX_SAMPLES
      modifies this`latencies
      ensures stats == Summary(old(latencies))
    {
      SortedCopySorts(latencies);
      var sorted := SortedCopy(latencies);  // slices.Sort
      TotalOfPermutation(sorted, latencies, Itself());
      latencies := sorted;
      stats := SummarizeSorted(sorted);
    }

    static method SummarizeSorted(sorted: seq<int>) returns (stats: LatencyStats)
      requires 0 < |sorted| <= MAX_SAMPLES
      ensures stats == LatencyStats(sorted[0], sorted[|sorted| - 1], TruncDiv(Wrap64(Sum(sorted)), |sorted|),
                                    (P99IndexInRange(|sorted|); sorted[P99Index(|sorted|)]), |sorted|)
    {
      var n := |sorted|;
      var sum := AddUp(sorted);
      var mean := TruncDiv(sum, n);
      P99IndexInRange(n);
      P99IndexInFloat64(n);
      var p99Index := Rounded(Times(n as real, FLOAT_099)).Floor;
      if p99Index >= n {
        p99Index := n - 1;
      }
      stats := LatencyStats(sorted[0], sorted[n - 1], mean, sorted[p99Index], n);
    }

    static method AddUp(latencies: seq<int>) returns (sum: int)
      ensures sum == Wrap64(Sum(latencies))
    {
      sum := 0;
      for i := 0 to |latencies|
        invariant sum == Wrap64(Sum(latencies[..i]))
      {
        SumStep(latencies, i);
        sum := Wrap64(sum + latencies[i]);
      }
      assert latencies[..|latencies|] == latencies;
    }

    // The part of CollectStats that reads and drains.
    method Drain(now: int) returns (stats: Stats)
      requires |latencies| <= MAX_SAMPLES
      modifies this`errors, this`latencies
      ensures stats == SnapshotOf(old(Fields()), now) && errors == [] && latencies == []
    {
      var pending := Wrap64(published - consumed);
      var latency := NO_LATENCY;
      if |latencies| > 0 {
        latency := CalculateLatencyStats();
        latencies := [];
      }
      stats := Stats(now, published, consumed, publishErrors, consumeErrors, pending, latency, errors);
      errors := [];
    }

    method CollectStats(now: int) returns (stats: Stats)
      requires Valid()
      modifies this`errors, this`latencies, this`written, this`log
      ensures Valid() && stats.timestamp == now && log == old(log) + [Collected(stats)]
      ensures written == if hasStorage && limits.Some? && limits.value.hash != ""
        then old(written) + [Write(StatsKind, StatsEntry(limits.value.hash, now, stats))] else old(written)
    {
      ghost var v, b := Fields(), CurrentBounds();
      AfterCollect(v, log, b, now);
      WindowIsBounded(v, log, b);
      stats := Drain(now);
      assert Fields() == v.(errors := [], latencies := []) && CurrentBounds() == b;
      log := log + [Collected(stats)];
      Store(StatsKind, stats);
    }

    // WriteFailure: a failure goes to the storage at once, and into no window.
    method WriteFailure(e: ErrorText, now: int)
      requires Valid()
      modifies this`written
      ensures Valid()
      ensures written == if hasStorage && limits.Some? && limits.value.hash != ""
        then old(written)
             + [Write(FailureKind, StatsEntry(limits.value.hash, now, Stats(now, 0, 0, 0, 0, 0, NO_LATENCY, [e])))]
        else old(written)
    {
      Store(FailureKind, FailureStats(e, now));
    }

    method Store(kind: Kind, stats: Stats)
      requires Valid() && (kind.FailureKind? ==> stats.errors != [])
      modifies this`written
      ensures Valid()
      ensures written == if hasStorage && limits.Some? && limits.value.hash != ""
        then old(written) + [Write(kind, StatsEntry(limits.value.hash, stats.timestamp, stats))] else old(written)
    {
      if Stores() {
        written := written + [WriteOf(kind, limits.value.hash, stats)];
      }
    }
  }

  lemma SumStep(s: seq<int>, i: nat)
    requires i < |s|
    ensures Wrap64(Wrap64(Sum(s[..i])) + s[i]) == Wrap64(Sum(s[..i + 1]))
  {
    assert s[..i + 1][..i] == s[..i];
  }
}
