// What a run of the collector between two SetConfig calls conserves. A run is the
// log that Collector.Valid keeps, and AllDescribed is what it says of it.
module CollectorTheorems {
  import opened Sequences
  import opened StatsModel
  import opened ErrorWindow
  import opened LatencySummary
  import opened CollectorModel

  // --- Conservation, for whatever the events record ---

  // The snapshots taken, in order.
  function Snapshots(log: seq<Event>): seq<Stats> {
    if log == [] then [] else
    var before := Snapshots(log[..|log| - 1]);
    if Last(log).Collected? then before + [Last(log).stats] else before
  }

  // For every snapshot, the window of what had been recorded since the one before.
  function Windows<T>(log: seq<Event>, item: Event -> Option<T>, window: seq<T> -> seq<T>): seq<seq<T>> {
    if log == [] then [] else
    var init := log[..|log| - 1];
    var before := Windows(init, item, window);
    if Last(log).Collected? then before + [window(Since(init, item))] else before
  }

  function Joined<T>(a: seq<seq<T>>, b: seq<seq<T>>): seq<seq<T>>
    requires |a| == |b|
  {
    seq(|a|, i requires 0 <= i < |a| => a[i] + b[i])
  }

  lemma JoinedSnoc<T>(a: seq<seq<T>>, b: seq<seq<T>>, x: seq<T>, y: seq<T>)
    requires |a| == |b|
    ensures Flatten(Joined(a + [x], b + [y])) == Flatten(Joined(a, b)) + (x + y)
  {
    assert Joined(a + [x], b + [y]) == Joined(a, b) + [x + y];
    FlattenSnoc(Joined(a, b), x + y);
  }

  // What was dropped before each snapshot, put back in front of its window, and
  // what is recorded since, is all that was recorded.
  ghost predicate Accounts<T>(evicted: seq<seq<T>>, windows: seq<seq<T>>, since: seq<T>, all: seq<T>) {
    |evicted| == |windows| && all == Flatten(Joined(evicted, windows)) + since
  }

  ghost predicate KeepsSuffix<T(!new)>(window: seq<T> -> seq<T>) {
    forall s :: IsSuffix(window(s), s)
  }

  ghost predicate NotInSnapshots<T>(item: Event -> Option<T>) {
    forall ev: Event :: ev.Collected? ==> item(ev).None?
  }

  lemma AccountsForSnapshot<T>(evicted: seq<seq<T>>, windows: seq<seq<T>>, since: seq<T>, all: seq<T>,
                               out: seq<T>, w: seq<T>)
    requires Accounts(evicted, windows, since, all) && since == out + w
    ensures Accounts(evicted + [out], windows + [w], [], all)
  {
    JoinedSnoc(evicted, windows, out, w);
  }

  lemma AccountsForItem<T>(evicted: seq<seq<T>>, windows: seq<seq<T>>, since: seq<T>, all: seq<T>, x: T)
    requires Accounts(evicted, windows, since, all)
    ensures Accounts(evicted, windows, since + [x], all + [x])
  {
  }

  lemma {:induction false} AllAccounted<T(!new)>(log: seq<Event>, item: Event -> Option<T>, window: seq<T> -> seq<T>)
    returns (evicted: seq<seq<T>>)
    requires KeepsSuffix(window) && NotInSnapshots(item)
    ensures Accounts(evicted, Windows(log, item, window), Since(log, item), Selected(log, item))
  {
    if log == [] {
      evicted := [];
    } else {
      var init, ev := log[..|log| - 1], Last(log);
      var windows, since, all := Windows(init, item, window), Since(init, item), Selected(init, item);
      evicted := AllAccounted(init, item, window);
      if ev.Collected? {
        var out := since[..|since| - |window(since)|];
        AccountsForSnapshot(evicted, windows, since, all, out, window(since));
        evicted := evicted + [out];
      } else if item(ev).Some? {
        AccountsForItem(evicted, windows, since, all, item(ev).value);
      }
    }
  }

  // Everything recorded is, in order, in exactly one place: dropped before some
  // snapshot, in that snapshot's window, dropped since the last one, or still kept.
  lemma Conserved<T(!new)>(log: seq<Event>, item: Event -> Option<T>, window: seq<T> -> seq<T>)
    returns (evicted: seq<seq<T>>)
    requires KeepsSuffix(window) && NotInSnapshots(item)
    ensures |evicted| == |Windows(log, item, window)| + 1
    ensures Selected(log, item) == Flatten(Joined(evicted, Windows(log, item, window) + [window(Since(log, item))]))
  {
    var before := AllAccounted(log, item, window);
    var since := Since(log, item);
    var out := since[..|since| - |window(since)|];
    AccountsForSnapshot(before, Windows(log, item, window), since, Selected(log, item), out, window(since));
    evicted := before + [out];
  }

  // --- The collector's two windows ---

  function ErrorWindowOf(b: Bounds): seq<ErrorText> -> seq<ErrorText> {
    errs => Window(errs, b.maxLines, b.maxBytes)
  }

  function LatencyWindowOf(b: Bounds): seq<int> -> seq<int> {
    samples => LastN(samples, b.maxSamples)
  }

  lemma ErrorWindowKeepsSuffix(b: Bounds)
    requires b.maxLines >= 1
    ensures KeepsSuffix(ErrorWindowOf(b))
  {
    forall s ensures IsSuffix(ErrorWindowOf(b)(s), s) {
      WindowMeetsDefinition(s, b.maxLines, b.maxBytes, Window(s, b.maxLines, b.maxBytes));
    }
  }

  lemma DescribedPrefix(log: seq<Event>, b: Bounds)
    requires AllDescribed(log, b) && log != []
    ensures AllDescribed(log[..|log| - 1], b)
  {
    var init := log[..|log| - 1];
    forall i | 0 <= i < |init| && init[i].Collected? ensures Describes(init[i].stats, init[..i], b) {
      assert init[i] == log[i] && init[..i] == log[..i];
    }
  }

  // Every snapshot shows the windows of its time.
  ghost predicate Shows(snapshots: seq<Stats>, errors: seq<seq<ErrorText>>, latencies: seq<seq<int>>) {
    && |snapshots| == |errors| == |latencies|
    && forall i :: 0 <= i < |snapshots| ==>
         snapshots[i].errors == errors[i] && snapshots[i].latency == Summary(latencies[i])
  }

  lemma {:induction false} SnapshotsShowWindows(log: seq<Event>, b: Bounds)
    requires AllDescribed(log, b)
    ensures Shows(Snapshots(log), Windows(log, ErrorOf(), ErrorWindowOf(b)),
                  Windows(log, LatencyOf(), LatencyWindowOf(b)))
  {
    if log == [] {
    } else {
      DescribedPrefix(log, b);
      SnapshotsShowWindows(log[..|log| - 1], b);
      assert Last(log).Collected? ==> Describes(log[|log| - 1].stats, log[..|log| - 1], b);
    }
  }

  // The errors of every snapshot, in order.
  function Reported(snapshots: seq<Stats>): seq<seq<ErrorText>> {
    seq(|snapshots|, i requires 0 <= i < |snapshots| => snapshots[i].errors)
  }

  lemma ErrorsAreConserved(v: View, log: seq<Event>, b: Bounds)
    requires b.maxLines >= 1 && Matches(v, log, b)
    ensures exists evicted: seq<seq<ErrorText>> ::
              && |evicted| == |Snapshots(log)| + 1
              && Selected(log, ErrorOf()) == Flatten(Joined(evicted, Reported(Snapshots(log)) + [v.errors]))
  {
    ErrorWindowKeepsSuffix(b);
    SnapshotsShowWindows(log, b);
    var evicted := Conserved(log, ErrorOf(), ErrorWindowOf(b));
    assert Reported(Snapshots(log)) == Windows(log, ErrorOf(), ErrorWindowOf(b));
  }

  // The samples a snapshot's latency figures summarize are recorded, in order,
  // between those of the other snapshots, and so are the ones still kept.
  lemma LatenciesAreConserved(v: View, log: seq<Event>, b: Bounds)
    requires Matches(v, log, b)
    ensures exists evicted: seq<seq<int>>, windows: seq<seq<int>> ::
              && |evicted| == |Snapshots(log)| + 1 == |windows| + 1
              && (forall i :: 0 <= i < |windows| ==> Snapshots(log)[i].latency == Summary(windows[i]))
              && Selected(log, LatencyOf()) == Flatten(Joined(evicted, windows + [v.latencies]))
  {
    SnapshotsShowWindows(log, b);
    var windows := Windows(log, LatencyOf(), LatencyWindowOf(b));
    var evicted := Conserved(log, LatencyOf(), LatencyWindowOf(b));
    assert |evicted| == |Snapshots(log)| + 1 == |windows| + 1;
  }

  // A snapshot reports an unbroken stretch of what was recorded since the one
  // before, ending with the newest error if there was any.
  lemma SnapshotReportsNewest(log: seq<Event>, b: Bounds, i: nat)
    requires b.maxLines >= 1 && AllDescribed(log, b) && i < |log| && log[i].Collected?
    ensures var since := ErrorsSince(log[..i]);
            && IsSuffix(log[i].stats.errors, since)
            && (since != [] ==> log[i].stats.errors != [] && Last(log[i].stats.errors) == Last(since))
            && |log[i].stats.errors| <= b.maxLines
            && (Size(log[i].stats.errors) <= b.maxBytes || |log[i].stats.errors| <= 1)
  {
    var since, w := ErrorsSince(log[..i]), log[i].stats.errors;
    WindowMeetsDefinition(since, b.maxLines, b.maxBytes, w);
    WindowIsSmall(since, b.maxLines, b.maxBytes);
    if since != [] {
      WindowKeepsNewest(w, since, b.maxLines, b.maxBytes);
    }
  }

  lemma {:induction false} CountsAppend(a: seq<Event>, b: seq<Event>)
    ensures Published(a + b) == Published(a) + Published(b) && Consumed(a + b) == Consumed(a) + Consumed(b)
    ensures PublishErrors(a + b) == PublishErrors(a) + PublishErrors(b)
    ensures ConsumeErrors(a + b) == ConsumeErrors(a) + ConsumeErrors(b)
  {
    if b == [] {
      assert a + b == a;
    } else {
      var init, ev := b[..|b| - 1], Last(b);
      CountsAppend(a, init);
      LogSnoc(a + init, ev);
      LogSnoc(init, ev);
      assert b == init + [ev] && a + b == (a + init) + [ev];
    }
  }

  lemma {:induction false} Uint64OfSmall(n: nat)
    ensures n < TWO_64 ==> Uint64(n) == n
  {
  }

  lemma {:induction false} EventsBound(log: seq<Event>)
    ensures Published(log) + Consumed(log) + PublishErrors(log) + ConsumeErrors(log) <= |log|
  {
    if log == [] {
    } else {
      EventsBound(log[..|log| - 1]);
    }
  }

  lemma SmallCounts(log: seq<Event>)
    requires |log| < TWO_64
    ensures Uint64(Published(log)) == Published(log) && Uint64(Consumed(log)) == Consumed(log)
    ensures Uint64(PublishErrors(log)) == PublishErrors(log) && Uint64(ConsumeErrors(log)) == ConsumeErrors(log)
  {
    EventsBound(log);
    Uint64OfSmall(Published(log));
    Uint64OfSmall(Consumed(log));
    Uint64OfSmall(PublishErrors(log));
    Uint64OfSmall(ConsumeErrors(log));
  }

  // Short of 2^64 events the counters of successive snapshots never go down, and the
  // differences are the events of each sort in between.
  lemma CountersNeverDrop(log: seq<Event>, b: Bounds, i: nat, j: nat)
    requires AllDescribed(log, b) && i < j < |log| < TWO_64 && log[i].Collected? && log[j].Collected?
    ensures var s, t, between := log[i].stats, log[j].stats, log[i..j];
            && t.published == s.published + Published(between)
            && t.consumed == s.consumed + Consumed(between)
            && t.publishErrors == s.publishErrors + PublishErrors(between)
            && t.consumeErrors == s.consumeErrors + ConsumeErrors(between)
            && t.published + t.consumed + t.publishErrors + t.consumeErrors <= j
  {
    assert log[..j] == log[..i] + log[i..j];
    CountsAppend(log[..i], log[i..j]);
    EventsBound(log[..j]);
    SmallCounts(log[..i]);
    SmallCounts(log[..j]);
  }

  // Short of 2^63 events the pending messages are those published and not consumed.
  lemma SnapshotPending(log: seq<Event>, b: Bounds, i: nat)
    requires AllDescribed(log, b) && i < |log| < 0x8000_0000_0000_0000 && log[i].Collected?
    ensures log[i].stats.pendingMessages == Published(log[..i]) - Consumed(log[..i])
    ensures log[i].stats.pendingMessages == log[i].stats.published - log[i].stats.consumed
  {
    EventsBound(log[..i]);
    SmallCounts(log[..i]);
    WrapOfInt64(Published(log[..i]) - Consumed(log[..i]));
  }

  // A snapshot's latency figures are those of the last samples since the one
  // before, at most maxSamples of them, and keep their order whatever order the
  // samples came in.
  lemma SnapshotLatencies(log: seq<Event>, b: Bounds, i: nat)
    requires AllDescribed(log, b) && i < |log| && log[i].Collected? && 0 < b.maxSamples <= MAX_SAMPLES
    ensures var since := LatenciesSince(log[..i]);
            var stats := log[i].stats.latency;
            && stats.count == (if |since| <= b.maxSamples then |since| else b.maxSamples)
            && (since != [] && (forall k :: 0 <= k < |since| ==>
                  -(LatencySummary.MAX_INT64 / MAX_SAMPLES) <= since[k] <= LatencySummary.MAX_INT64 / MAX_SAMPLES) ==>
                stats.min <= stats.mean <= stats.max && stats.min <= stats.p99 <= stats.max
                && stats.min in since && stats.max in since && stats.p99 in since)
  {
    var since := LatenciesSince(log[..i]);
    var window := LastN(since, b.maxSamples);
    SortedCopySorts(window);
    if since != [] && (forall k :: 0 <= k < |since| ==>
      -(LatencySummary.MAX_INT64 / MAX_SAMPLES) <= since[k] <= LatencySummary.MAX_INT64 / MAX_SAMPLES) {
      WindowCannotOverflow(window);
      MeanBetweenExtremes(window);
      MinMaxBound(window);
    }
  }
}
