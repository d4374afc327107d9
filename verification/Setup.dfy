// Setting up a specification's streams and starting its consumers: every library
// call is retried with backoff, under the context of the worker.
module Setup {
  import opened Backoff
  import opened LoadTestSpecs
  import opened Naming
  import opened FanOut

  const TRIES := 5

  type Attempts = s: seq<Attempt> | |s| == TRIES witness seq(TRIES, _ => Attempt(false, true, "", false))

  // What deleting and creating one stream meets.
  datatype StreamTries = StreamTries(deleting: Attempts, creating: Attempts)

  predicate StreamSucceeds(t: StreamTries) {
    Succeeds(t.deleting, TRIES) && Succeeds(t.creating, TRIES)
  }

  predicate ConsumerSucceeds(t: Attempts) {
    Succeeds(t, TRIES)
  }

  // Streams are counted through the entries of the list.
  function StreamCount(streams: seq<StreamSpec>): nat {
    if streams == [] then 0 else
    StreamCount(streams[..|streams| - 1]) + AtLeastZero(streams[|streams| - 1].count)
  }

  datatype Outcome = Ready | Failed | Panicked

  ghost predicate FirstSucceed(tries: nat -> StreamTries, n: nat) {
    forall k: nat :: k < n ==> StreamSucceeds(tries(k))
  }

  method SetUpStream(t: StreamTries) returns (ok: bool)
    ensures ok <==> StreamSucceeds(t)
  {
    var deleted, _, _ := ExponentialBackoff(1_000_000_000, 1.5, TRIES, 5_000_000_000, t.deleting);
    if !deleted.Success? {
      return false;
    }
    var created, _, _ := ExponentialBackoff(1_000_000_000, 1.5, TRIES, 5, t.creating);
    return created.Success?;
  }

  method TryAllStreams(n: nat, tries: nat -> StreamTries) returns (ok: bool)
    ensures ok <==> FirstSucceed(tries, n)
  {
    for k := 0 to n
      invariant FirstSucceed(tries, k)
    {
      ok := SetUpStream(tries(k));
      if !ok {
        return false;
      }
    }
    return true;
  }

  method SetupStreams(streams: seq<StreamSpec>, tries: nat -> StreamTries) returns (outcome: Outcome)
    ensures outcome.Ready? <==>
      && (forall i :: 0 <= i < |streams| ==> streams[i].count >= 0)
      && forall k: nat :: k < StreamCount(streams) ==> Succeeds(tries(k).deleting, 5) && Succeeds(tries(k).creating, 5)
    ensures outcome.Panicked? ==> exists i :: 0 <= i < |streams| && streams[i].count < 0
  {
    var done := 0;
    for n := 0 to |streams|
      invariant done == StreamCount(streams[..n]) && FirstSucceed(tries, done)
      invariant forall i :: 0 <= i < n ==> streams[i].count >= 0
    {
      CountNext(streams, n);
      var panicked, streamNames := GetFormattedStreamNames(streams[n].namePrefix, streams[n].count);
      if panicked {
        return Panicked;
      }
      for i := 0 to |streamNames|
        invariant done == StreamCount(streams[..n]) + i && FirstSucceed(tries, done)
      {
        var ok := SetUpStream(tries(done));
        if !ok {
          return Failed;
        }
        done := done + 1;
      }
    }
    assert streams[..|streams|] == streams;
    return Ready;
  }

  lemma CountNext(streams: seq<StreamSpec>, n: nat)
    requires n < |streams|
    ensures StreamCount(streams[..n + 1]) == StreamCount(streams[..n]) + AtLeastZero(streams[n].count)
    ensures StreamCount(streams[..n]) + AtLeastZero(streams[n].count) <= StreamCount(streams)
  {
    assert streams[..n + 1][..n] == streams[..n];
    CountGrows(streams, n + 1);
  }

  lemma {:induction false} CountGrows(streams: seq<StreamSpec>, n: nat)
    requires n <= |streams|
    ensures StreamCount(streams[..n]) <= StreamCount(streams)
  {
    if n == |streams| {
      assert streams[..n] == streams;
    } else {
      var init := streams[..|streams| - 1];
      CountGrows(init, n);
      assert init[..n] == streams[..n];
    }
  }

  // Every consumer is started on its own; all have to be.
  method StartConsumers(count: nat, tries: nat -> Attempts) returns (ok: bool)
    ensures ok <==> forall k: nat :: k < count ==> Succeeds(tries(k), 5)
  {
    ok := true;
    for k := 0 to count
      invariant ok <==> forall j: nat :: j < k ==> ConsumerSucceeds(tries(j))
    {
      var result, _, _ := ExponentialBackoff(1_000_000_000, 2.0, TRIES, 5_000_000_000, tries(k));
      ok := ok && result.Success?;
    }
  }

  // --- With the context done from the start ---

  lemma DoneStreamsFail(streams: seq<StreamSpec>, tries: nat -> StreamTries)
    requires forall k: nat :: tries(k).deleting[0].doneBefore
    ensures FirstSucceed(tries, StreamCount(streams)) <==> StreamCount(streams) == 0
  {
    if StreamCount(streams) > 0 {
      DoneIsFatal(tries(0).deleting, TRIES);
      assert !StreamSucceeds(tries(0));
    }
  }

  lemma DoneConsumersFail(count: nat, tries: nat -> Attempts)
    requires forall k: nat :: tries(k)[0].doneBefore
    ensures (forall k: nat :: k < count ==> ConsumerSucceeds(tries(k))) <==> count == 0
  {
    if count > 0 {
      DoneIsFatal(tries(0), TRIES);
    }
  }

  // --- A validated specification has something to set up and to start ---

  lemma {:induction false} StreamsToSetUp(streams: seq<StreamSpec>)
    requires streams != [] && forall i :: 0 <= i < |streams| ==> ValidStream(streams[i])
    ensures StreamCount(streams) > 0
  {
  }

  lemma {:induction false} ConsumersToStart(streams: seq<StreamSpec>, prefix: string, copies: nat, n: nat)
    requires n < |streams| && Matches(streams[n], prefix) && ValidStream(streams[n]) && copies > 0
    ensures Members(streams, prefix, copies) > 0
  {
    InPlaces(Place(n, 1, 0, 1), streams, prefix, copies);
    PlacesCount(streams, prefix, copies);
  }
}
