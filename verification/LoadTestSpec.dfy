// The numbers of a load test specification, how a repetition scales them in
// place, and which specifications stay valid under repetition.
module LoadTestSpecs {
  import opened Sequences
  import opened Float64
  import opened Scaling

  datatype StreamSpec = StreamSpec(namePrefix: string, count: int, replicas: int, messagesPerStreamPerSecond: int,
                                   subjects: seq<string>)

  datatype Numbers = Numbers(
    durationSeconds: int, rampUpSeconds: int,
    ackWaitSeconds: int, maxAckPending: int, consumeDelayMs: int, consumersPerStream: int,
    publishersPerStream: int, publishRatePerSecond: int, messageSizeBytes: int
  )

  // A float64.
  type Factor = m: real | IsFactor(m)

  datatype RepeatPolicy = RepeatPolicy(
    count: Factor, replicas: Factor, messages: Factor,
    duration: Factor, rampUp: Factor,
    ackWait: Factor, maxAckPending: Factor, consumeDelay: Factor, consumersPerStream: Factor,
    publishersPerStream: Factor, publishRate: Factor, messageSize: Factor
  )

  // --- Validation ---

  predicate ValidStream(s: StreamSpec) {
    s.namePrefix != "" && s.count > 0 && s.replicas > 0 && s.messagesPerStreamPerSecond > 0 && s.subjects != []
  }

  predicate ValidNumbers(n: Numbers) {
    && n.durationSeconds > 0 && n.rampUpSeconds >= 0
    && n.ackWaitSeconds > 0 && n.maxAckPending > 0 && n.consumersPerStream > 0
    && n.publishersPerStream > 0 && n.publishRatePerSecond > 0 && n.messageSizeBytes > 0
  }

  predicate ValidPolicy(rp: RepeatPolicy) {
    && rp.count > 0.0 && rp.replicas > 0.0 && rp.messages > 0.0 && rp.duration > 0.0 && rp.rampUp >= 0.0
    && rp.ackWait > 0.0 && rp.maxAckPending > 0.0 && rp.consumeDelay > 0.0 && rp.consumersPerStream > 0.0
    && rp.publishersPerStream > 0.0 && rp.publishRate > 0.0 && rp.messageSize > 0.0
  }

  function OrOne(m: Factor): Factor {
    if m <= 0.0 then 1.0 else m
  }

  // Every multiplier but ramp-up's defaults to 1.
  function WithDefaults(rp: RepeatPolicy): RepeatPolicy {
    RepeatPolicy(OrOne(rp.count), OrOne(rp.replicas), OrOne(rp.messages), OrOne(rp.duration), rp.rampUp,
                 OrOne(rp.ackWait), OrOne(rp.maxAckPending), OrOne(rp.consumeDelay), OrOne(rp.consumersPerStream),
                 OrOne(rp.publishersPerStream), OrOne(rp.publishRate), OrOne(rp.messageSize))
  }

  // RepeatPolicy.Validate: a disabled policy passes as it is; a negative ramp-up
  // multiplier of an enabled one is refused, after the fields before it have been
  // set.
  method ValidatePolicy(enabled: bool, rp: RepeatPolicy) returns (ok: bool, v: RepeatPolicy)
    ensures ok <==> !enabled || rp.rampUp >= 0.0
    ensures !enabled ==> v == rp
    ensures enabled && ok ==> v == WithDefaults(rp) && ValidPolicy(v)
    // Every multiplier but ramp-up's is kept if it is positive and 1 otherwise.
    ensures enabled && ok ==>
      && v.count == (if rp.count > 0.0 then rp.count else 1.0)
      && v.replicas == (if rp.replicas > 0.0 then rp.replicas else 1.0)
      && v.messages == (if rp.messages > 0.0 then rp.messages else 1.0)
      && v.duration == (if rp.duration > 0.0 then rp.duration else 1.0)
      && v.rampUp == rp.rampUp
      && v.ackWait == (if rp.ackWait > 0.0 then rp.ackWait else 1.0)
      && v.maxAckPending == (if rp.maxAckPending > 0.0 then rp.maxAckPending else 1.0)
      && v.consumeDelay == (if rp.consumeDelay > 0.0 then rp.consumeDelay else 1.0)
      && v.consumersPerStream == (if rp.consumersPerStream > 0.0 then rp.consumersPerStream else 1.0)
      && v.publishersPerStream == (if rp.publishersPerStream > 0.0 then rp.publishersPerStream else 1.0)
      && v.publishRate == (if rp.publishRate > 0.0 then rp.publishRate else 1.0)
      && v.messageSize == (if rp.messageSize > 0.0 then rp.messageSize else 1.0)
    ensures ok && ValidPolicy(rp) ==> v == rp
  {
    v := rp;
    if !enabled {
      return true, v;
    }
    v := v.(count := OrOne(rp.count), replicas := OrOne(rp.replicas), messages := OrOne(rp.messages),
            duration := OrOne(rp.duration));
    if rp.rampUp < 0.0 {
      return false, v;
    }
    v := v.(ackWait := OrOne(rp.ackWait), maxAckPending := OrOne(rp.maxAckPending));
    v := v.(consumeDelay := OrOne(rp.consumeDelay), consumersPerStream := OrOne(rp.consumersPerStream));
    v := v.(publishersPerStream := OrOne(rp.publishersPerStream), publishRate := OrOne(rp.publishRate),
            messageSize := OrOne(rp.messageSize));
    return true, v;
  }

  // --- One repetition ---

  // What a repetition may leave of a stream and of the numbers: every field is
  // multiplied by its own multiplier.
  predicate StreamScaled(s: StreamSpec, rp: RepeatPolicy, s': StreamSpec) {
    && s'.namePrefix == s.namePrefix && s'.subjects == s.subjects
    && Multiplied(s.count, rp.count, MAX_INT32, s'.count)
    && Multiplied(s.replicas, rp.replicas, MAX_INT32, s'.replicas)
    && Multiplied(s.messagesPerStreamPerSecond, rp.messages, MAX_INT64, s'.messagesPerStreamPerSecond)
  }

  predicate NumbersScaled(n: Numbers, rp: RepeatPolicy, n': Numbers) {
    && Multiplied(n.durationSeconds, rp.duration, MAX_INT64, n'.durationSeconds)
    && Multiplied(n.rampUpSeconds, rp.rampUp, MAX_INT64, n'.rampUpSeconds)
    && Multiplied(n.ackWaitSeconds, rp.ackWait, MAX_INT64, n'.ackWaitSeconds)
    && Multiplied(n.maxAckPending, rp.maxAckPending, MAX_INT32, n'.maxAckPending)
    && Multiplied(n.consumeDelayMs, rp.consumeDelay, MAX_INT64, n'.consumeDelayMs)
    && Multiplied(n.consumersPerStream, rp.consumersPerStream, MAX_INT32, n'.consumersPerStream)
    && Multiplied(n.publishersPerStream, rp.publishersPerStream, MAX_INT32, n'.publishersPerStream)
    && Multiplied(n.publishRatePerSecond, rp.publishRate, MAX_INT32, n'.publishRatePerSecond)
    && Multiplied(n.messageSizeBytes, rp.messageSize, MAX_INT32, n'.messageSizeBytes)
  }

  method Multiply(v: int, m: real, max: nat) returns (i: int)
    ensures Multiplied(v, m, max, i)
  {
    var product := Rounded(Times(Rounded(v as real), m));
    i := Trunc(product);
    if !Within(i, max) {
      i :| Within(i, max);
    }
  }

  method ScaleStream(s: StreamSpec, rp: RepeatPolicy) returns (s': StreamSpec)
    ensures StreamScaled(s, rp, s')
  {
    var count := Multiply(s.count, rp.count, MAX_INT32);
    var replicas := Multiply(s.replicas, rp.replicas, MAX_INT32);
    var messages := Multiply(s.messagesPerStreamPerSecond, rp.messages, MAX_INT64);
    s' := s.(count := count, replicas := replicas, messagesPerStreamPerSecond := messages);
  }

  method ScaleNumbers(n: Numbers, rp: RepeatPolicy) returns (n': Numbers)
    ensures NumbersScaled(n, rp, n')
  {
    var duration := Multiply(n.durationSeconds, rp.duration, MAX_INT64);
    var rampUp := Multiply(n.rampUpSeconds, rp.rampUp, MAX_INT64);
    var ackWait := Multiply(n.ackWaitSeconds, rp.ackWait, MAX_INT64);
    var maxAck := Multiply(n.maxAckPending, rp.maxAckPending, MAX_INT32);
    var delay := Multiply(n.consumeDelayMs, rp.consumeDelay, MAX_INT64);
    var consumers := Multiply(n.consumersPerStream, rp.consumersPerStream, MAX_INT32);
    var publishers := Multiply(n.publishersPerStream, rp.publishersPerStream, MAX_INT32);
    var rate := Multiply(n.publishRatePerSecond, rp.publishRate, MAX_INT32);
    var size := Multiply(n.messageSizeBytes, rp.messageSize, MAX_INT32);
    n' := Numbers(duration, rampUp, ackWait, maxAck, delay, consumers, publishers, rate, size);
  }

  // The part of a specification that repetition touches.
  datatype Contents = Contents(numbers: Numbers, streams: seq<StreamSpec>)

  predicate Repeated(c: Contents, rp: RepeatPolicy, c': Contents) {
    && NumbersScaled(c.numbers, rp, c'.numbers) && |c'.streams| == |c.streams|
    && forall i :: 0 <= i < |c.streams| ==> StreamScaled(c.streams[i], rp, c'.streams[i])
  }

  class LoadTestSpec {
    const streams: array<StreamSpec>
    var numbers: Numbers

    constructor (streams: array<StreamSpec>, numbers: Numbers)
      ensures this.streams == streams && this.numbers == numbers
    {
      this.streams, this.numbers := streams, numbers;
    }

    function Current(): Contents
      reads this, streams
    {
      Contents(numbers, streams[..])
    }

    method ApplyMultipliers(rp: RepeatPolicy)
      modifies this, streams
      ensures Repeated(old(Current()), rp, Current())
    {
      for i := 0 to streams.Length
        invariant numbers == old(numbers)
        invariant forall j :: i <= j < streams.Length ==> streams[j] == old(streams[j])
        invariant forall j :: 0 <= j < i ==> StreamScaled(old(streams[j]), rp, streams[j])
      {
        streams[i] := ScaleStream(streams[i], rp);
      }
      numbers := ScaleNumbers(numbers, rp);
    }

    // The multiplications of k turns of the repeat loop, all on the one specification.
    method Repeat(rp: RepeatPolicy, k: nat) returns (ghost run: seq<Contents>)
      modifies this, streams
      ensures |run| == k + 1 && run[0] == old(Current()) && run[k] == Current() && IsRun(run, rp)
      ensures FitsThrough(old(Current()), rp, k) ==>
        && numbers == NumbersAfter(old(numbers), rp, k)
        && forall i :: 0 <= i < streams.Length ==> streams[i] == StreamAfter(old(streams[i]), rp, k)
      ensures ValidContents(run[0]) && Fits(run[0]) && ValidPolicy(rp) && Settled(run[0], rp) ==>
        ValidContents(Current())
    {
      run := [Current()];
      for i := 0 to k
        invariant |run| == i + 1 && run[0] == old(Current()) && run[i] == Current() && IsRun(run, rp)
      {
        ApplyMultipliers(rp);
        run := run + [Current()];
      }
      if FitsThrough(run[0], rp, k) {
        RunIsExact(run, rp, k);
        assert forall i :: 0 <= i < streams.Length ==> streams[i] == Current().streams[i];
      }
      if ValidContents(run[0]) && Fits(run[0]) && ValidPolicy(rp) && Settled(run[0], rp) {
        SettledStaysValid(run, rp, k);
      }
    }
  }

  // --- Any number of repetitions ---

  ghost predicate IsRun(run: seq<Contents>, rp: RepeatPolicy) {
    forall i :: 0 <= i < |run| - 1 ==> Repeated(run[i], rp, run[i + 1])
  }

  predicate ValidContents(c: Contents) {
    ValidNumbers(c.numbers) && forall i :: 0 <= i < |c.streams| ==> ValidStream(c.streams[i])
  }

  // Every field is a number of its type.
  predicate StreamFits(s: StreamSpec) {
    && Within(s.count, MAX_INT32) && Within(s.replicas, MAX_INT32)
    && Within(s.messagesPerStreamPerSecond, MAX_INT64)
  }

  predicate NumbersFit(n: Numbers) {
    && Within(n.durationSeconds, MAX_INT64) && Within(n.rampUpSeconds, MAX_INT64)
    && Within(n.ackWaitSeconds, MAX_INT64) && Within(n.maxAckPending, MAX_INT32)
    && Within(n.consumeDelayMs, MAX_INT64) && Within(n.consumersPerStream, MAX_INT32)
    && Within(n.publishersPerStream, MAX_INT32) && Within(n.publishRatePerSecond, MAX_INT32)
    && Within(n.messageSizeBytes, MAX_INT32)
  }

  predicate Fits(c: Contents) {
    NumbersFit(c.numbers) && forall i :: 0 <= i < |c.streams| ==> StreamFits(c.streams[i])
  }

  // After the first repetition nothing validated changes any more, and the ramp-up,
  // which may be any number that is not negative, does not rise.
  predicate StreamSettled(s: StreamSpec, rp: RepeatPolicy) {
    && Settles(s.count, rp.count, MAX_INT32) && Settles(s.replicas, rp.replicas, MAX_INT32)
    && Settles(s.messagesPerStreamPerSecond, rp.messages, MAX_INT64)
  }

  predicate NumbersSettled(n: Numbers, rp: RepeatPolicy) {
    && Settles(n.durationSeconds, rp.duration, MAX_INT64)
    && StopsRising(n.rampUpSeconds, rp.rampUp, MAX_INT64)
    && Settles(n.ackWaitSeconds, rp.ackWait, MAX_INT64)
    && Settles(n.maxAckPending, rp.maxAckPending, MAX_INT32)
    && Settles(n.consumersPerStream, rp.consumersPerStream, MAX_INT32)
    && Settles(n.publishersPerStream, rp.publishersPerStream, MAX_INT32)
    && Settles(n.publishRatePerSecond, rp.publishRate, MAX_INT32)
    && Settles(n.messageSizeBytes, rp.messageSize, MAX_INT32)
  }

  predicate Settled(c: Contents, rp: RepeatPolicy) {
    NumbersSettled(c.numbers, rp) && forall i :: 0 <= i < |c.streams| ==> StreamSettled(c.streams[i], rp)
  }

  ghost predicate StaysValid(c: Contents, rp: RepeatPolicy) {
    forall run :: |run| > 0 && run[0] == c && IsRun(run, rp) ==> ValidContents(Last(run))
  }

  // A valid specification stays valid in every run of repetitions exactly when it
  // settles with the first.
  lemma StaysValidIffSettled(c: Contents, rp: RepeatPolicy)
    requires ValidContents(c) && Fits(c) && ValidPolicy(rp)
    ensures StaysValid(c, rp) <==> Settled(c, rp)
  {
    if Settled(c, rp) {
      forall run | |run| > 0 && run[0] == c && IsRun(run, rp) ensures ValidContents(Last(run)) {
        SettledStaysValid(run, rp, |run| - 1);
      }
    } else {
      var k := UnsettledFails(c, rp);
      var run := seq(k + 1, i requires 0 <= i <= k => WorstContentsAfter(c, rp, i));
      WorstContentsRun(c, rp, k, run);
      assert run[0] == c && Last(run) == WorstContentsAfter(c, rp, k);
    }
  }

  // What a settled specification may become: each field what it was or what the
  // first repetition made of it. The delay between messages is not validated.
  predicate NumbersKept(n: Numbers, rp: RepeatPolicy, w: Numbers) {
    && Kept(n.durationSeconds, rp.duration, w.durationSeconds)
    && KeptLow(n.rampUpSeconds, rp.rampUp, w.rampUpSeconds)
    && Kept(n.ackWaitSeconds, rp.ackWait, w.ackWaitSeconds)
    && Kept(n.maxAckPending, rp.maxAckPending, w.maxAckPending)
    && Kept(n.consumersPerStream, rp.consumersPerStream, w.consumersPerStream)
    && Kept(n.publishersPerStream, rp.publishersPerStream, w.publishersPerStream)
    && Kept(n.publishRatePerSecond, rp.publishRate, w.publishRatePerSecond)
    && Kept(n.messageSizeBytes, rp.messageSize, w.messageSizeBytes)
  }

  predicate StreamKept(s: StreamSpec, rp: RepeatPolicy, w: StreamSpec) {
    && w.namePrefix == s.namePrefix && w.subjects == s.subjects
    && Kept(s.count, rp.count, w.count) && Kept(s.replicas, rp.replicas, w.replicas)
    && Kept(s.messagesPerStreamPerSecond, rp.messages, w.messagesPerStreamPerSecond)
  }

  lemma SettledNumbersStay(n: Numbers, rp: RepeatPolicy, w: Numbers, w': Numbers)
    requires ValidNumbers(n) && NumbersFit(n) && ValidPolicy(rp) && NumbersSettled(n, rp)
    requires NumbersKept(n, rp, w) && NumbersScaled(w, rp, w')
    ensures NumbersKept(n, rp, w') && ValidNumbers(w')
  {
    SettledIsKept(n.durationSeconds, rp.duration, MAX_INT64, w.durationSeconds, w'.durationSeconds);
    StoppedIsKept(n.rampUpSeconds, rp.rampUp, MAX_INT64, w.rampUpSeconds, w'.rampUpSeconds);
    SettledIsKept(n.ackWaitSeconds, rp.ackWait, MAX_INT64, w.ackWaitSeconds, w'.ackWaitSeconds);
    SettledIsKept(n.maxAckPending, rp.maxAckPending, MAX_INT32, w.maxAckPending, w'.maxAckPending);
    SettledIsKept(n.consumersPerStream, rp.consumersPerStream, MAX_INT32, w.consumersPerStream, w'.consumersPerStream);
    SettledIsKept(n.publishersPerStream, rp.publishersPerStream, MAX_INT32, w.publishersPerStream,
                  w'.publishersPerStream);
    SettledIsKept(n.publishRatePerSecond, rp.publishRate, MAX_INT32, w.publishRatePerSecond, w'.publishRatePerSecond);
    SettledIsKept(n.messageSizeBytes, rp.messageSize, MAX_INT32, w.messageSizeBytes, w'.messageSizeBytes);
  }

  lemma SettledStreamStays(s: StreamSpec, rp: RepeatPolicy, w: StreamSpec, w': StreamSpec)
    requires ValidStream(s) && StreamSettled(s, rp) && StreamKept(s, rp, w) && StreamScaled(w, rp, w')
    ensures StreamKept(s, rp, w') && ValidStream(w')
  {
    SettledIsKept(s.count, rp.count, MAX_INT32, w.count, w'.count);
    SettledIsKept(s.replicas, rp.replicas, MAX_INT32, w.replicas, w'.replicas);
    SettledIsKept(s.messagesPerStreamPerSecond, rp.messages, MAX_INT64, w.messagesPerStreamPerSecond,
                  w'.messagesPerStreamPerSecond);
  }

  lemma {:induction false} SettledStaysValid(run: seq<Contents>, rp: RepeatPolicy, k: nat)
    requires k < |run| && IsRun(run, rp)
    requires ValidContents(run[0]) && Fits(run[0]) && ValidPolicy(rp) && Settled(run[0], rp)
    ensures NumbersKept(run[0].numbers, rp, run[k].numbers) && |run[k].streams| == |run[0].streams|
    ensures forall i :: 0 <= i < |run[0].streams| ==> StreamKept(run[0].streams[i], rp, run[k].streams[i])
    ensures ValidContents(run[k])
  {
    if k == 0 {
    } else {
      SettledStaysValid(run, rp, k - 1);
      assert Repeated(run[k - 1], rp, run[k]);
      SettledNumbersStay(run[0].numbers, rp, run[k - 1].numbers, run[k].numbers);
      forall i | 0 <= i < |run[0].streams|
        ensures StreamKept(run[0].streams[i], rp, run[k].streams[i]) && ValidStream(run[k].streams[i])
      {
        SettledStreamStays(run[0].streams[i], rp, run[k - 1].streams[i], run[k].streams[i]);
      }
    }
  }

  // --- Steps that act on every field by itself ---

  datatype Steps = Steps(
    duration: int -> int, rampUp: int -> int,
    ackWait: int -> int, maxAckPending: int -> int, consumeDelay: int -> int, consumersPerStream: int -> int,
    publishersPerStream: int -> int, publishRate: int -> int, messageSize: int -> int
  )

  function Stepped(n: Numbers, f: Steps): Numbers {
    Numbers(f.duration(n.durationSeconds), f.rampUp(n.rampUpSeconds), f.ackWait(n.ackWaitSeconds),
            f.maxAckPending(n.maxAckPending), f.consumeDelay(n.consumeDelayMs),
            f.consumersPerStream(n.consumersPerStream), f.publishersPerStream(n.publishersPerStream),
            f.publishRate(n.publishRatePerSecond), f.messageSize(n.messageSizeBytes))
  }

  function SteppedAfter(n: Numbers, f: Steps, k: nat): Numbers {
    if k == 0 then n else Stepped(SteppedAfter(n, f, k - 1), f)
  }

  // k steps of the whole are k steps of each field.
  lemma {:induction false} FieldsStep(n: Numbers, f: Steps, k: nat)
    ensures SteppedAfter(n, f, k) ==
            Numbers(Repeat(f.duration, n.durationSeconds, k), Repeat(f.rampUp, n.rampUpSeconds, k),
                    Repeat(f.ackWait, n.ackWaitSeconds, k), Repeat(f.maxAckPending, n.maxAckPending, k),
                    Repeat(f.consumeDelay, n.consumeDelayMs, k),
                    Repeat(f.consumersPerStream, n.consumersPerStream, k),
                    Repeat(f.publishersPerStream, n.publishersPerStream, k),
                    Repeat(f.publishRate, n.publishRatePerSecond, k),
                    Repeat(f.messageSize, n.messageSizeBytes, k))
  {
    if k == 0 {
    } else {
      FieldsStep(n, f, k - 1);
    }
  }

  // --- The worst run of an unsettled specification ---

  function WorstStream(s: StreamSpec, rp: RepeatPolicy): StreamSpec {
    s.(count := Worst(s.count, rp.count, MAX_INT32), replicas := Worst(s.replicas, rp.replicas, MAX_INT32),
       messagesPerStreamPerSecond := Worst(s.messagesPerStreamPerSecond, rp.messages, MAX_INT64))
  }

  function Worsts(rp: RepeatPolicy): Steps {
    Steps(WorstOf(rp.duration, MAX_INT64), WorstOf(rp.rampUp, MAX_INT64), WorstOf(rp.ackWait, MAX_INT64),
          WorstOf(rp.maxAckPending, MAX_INT32), WorstOf(rp.consumeDelay, MAX_INT64),
          WorstOf(rp.consumersPerStream, MAX_INT32), WorstOf(rp.publishersPerStream, MAX_INT32),
          WorstOf(rp.publishRate, MAX_INT32), WorstOf(rp.messageSize, MAX_INT32))
  }

  function WorstNumbersAfter(n: Numbers, rp: RepeatPolicy, k: nat): Numbers {
    SteppedAfter(n, Worsts(rp), k)
  }

  function WorstStreamAfter(s: StreamSpec, rp: RepeatPolicy, k: nat): StreamSpec {
    if k == 0 then s else WorstStream(WorstStreamAfter(s, rp, k - 1), rp)
  }

  function WorstContentsAfter(c: Contents, rp: RepeatPolicy, k: nat): Contents {
    Contents(WorstNumbersAfter(c.numbers, rp, k),
             seq(|c.streams|, i requires 0 <= i < |c.streams| => WorstStreamAfter(c.streams[i], rp, k)))
  }

  lemma WorstNumbersPossible(n: Numbers, rp: RepeatPolicy)
    ensures NumbersScaled(n, rp, Stepped(n, Worsts(rp)))
  {
  }

  lemma WorstStreamPossible(s: StreamSpec, rp: RepeatPolicy)
    ensures StreamScaled(s, rp, WorstStream(s, rp))
  {
  }

  lemma WorstContentsRun(c: Contents, rp: RepeatPolicy, k: nat, run: seq<Contents>)
    requires |run| == k + 1 && forall i :: 0 <= i <= k ==> run[i] == WorstContentsAfter(c, rp, i)
    ensures IsRun(run, rp) && run[0] == c
  {
    forall i | 0 <= i < |run| - 1 ensures Repeated(run[i], rp, run[i + 1]) {
      WorstNumbersPossible(run[i].numbers, rp);
      forall j | 0 <= j < |c.streams| ensures StreamScaled(run[i].streams[j], rp, run[i + 1].streams[j]) {
        WorstStreamPossible(run[i].streams[j], rp);
      }
    }
    assert run[0].streams == c.streams;
  }

  lemma {:induction false} WorstStreamByField(s: StreamSpec, rp: RepeatPolicy, k: nat)
    ensures WorstStreamAfter(s, rp, k) ==
            s.(count := WorstAfter(s.count, rp.count, MAX_INT32, k),
               replicas := WorstAfter(s.replicas, rp.replicas, MAX_INT32, k),
               messagesPerStreamPerSecond := WorstAfter(s.messagesPerStreamPerSecond, rp.messages, MAX_INT64, k))
  {
    if k == 0 {
    } else {
      WorstStreamByField(s, rp, k - 1);
    }
  }

  lemma UnsettledStreamFails(s: StreamSpec, rp: RepeatPolicy) returns (k: nat)
    requires ValidStream(s) && StreamFits(s) && ValidPolicy(rp) && !StreamSettled(s, rp)
    ensures !ValidStream(WorstStreamAfter(s, rp, k))
  {
    if !Settles(s.count, rp.count, MAX_INT32) {
      k := UnsettledIsFatal(s.count, rp.count, MAX_INT32);
    } else if !Settles(s.replicas, rp.replicas, MAX_INT32) {
      k := UnsettledIsFatal(s.replicas, rp.replicas, MAX_INT32);
    } else {
      k := UnsettledIsFatal(s.messagesPerStreamPerSecond, rp.messages, MAX_INT64);
    }
    WorstStreamByField(s, rp, k);
  }

  lemma UnsettledNumbersFail(n: Numbers, rp: RepeatPolicy) returns (k: nat)
    requires ValidNumbers(n) && NumbersFit(n) && ValidPolicy(rp) && !NumbersSettled(n, rp)
    ensures !ValidNumbers(WorstNumbersAfter(n, rp, k))
  {
    if !Settles(n.durationSeconds, rp.duration, MAX_INT64) {
      k := UnsettledIsFatal(n.durationSeconds, rp.duration, MAX_INT64);
      WorstIsRepeat(n.durationSeconds, rp.duration, MAX_INT64, k);
    } else if !StopsRising(n.rampUpSeconds, rp.rampUp, MAX_INT64) {
      k := RisingIsFatal(n.rampUpSeconds, rp.rampUp, MAX_INT64);
      WorstIsRepeat(n.rampUpSeconds, rp.rampUp, MAX_INT64, k);
    } else if !Settles(n.ackWaitSeconds, rp.ackWait, MAX_INT64) {
      k := UnsettledIsFatal(n.ackWaitSeconds, rp.ackWait, MAX_INT64);
      WorstIsRepeat(n.ackWaitSeconds, rp.ackWait, MAX_INT64, k);
    } else if !Settles(n.maxAckPending, rp.maxAckPending, MAX_INT32) {
      k := UnsettledIsFatal(n.maxAckPending, rp.maxAckPending, MAX_INT32);
      WorstIsRepeat(n.maxAckPending, rp.maxAckPending, MAX_INT32, k);
    } else if !Settles(n.consumersPerStream, rp.consumersPerStream, MAX_INT32) {
      k := UnsettledIsFatal(n.consumersPerStream, rp.consumersPerStream, MAX_INT32);
      WorstIsRepeat(n.consumersPerStream, rp.consumersPerStream, MAX_INT32, k);
    } else if !Settles(n.publishersPerStream, rp.publishersPerStream, MAX_INT32) {
      k := UnsettledIsFatal(n.publishersPerStream, rp.publishersPerStream, MAX_INT32);
      WorstIsRepeat(n.publishersPerStream, rp.publishersPerStream, MAX_INT32, k);
    } else if !Settles(n.publishRatePerSecond, rp.publishRate, MAX_INT32) {
      k := UnsettledIsFatal(n.publishRatePerSecond, rp.publishRate, MAX_INT32);
      WorstIsRepeat(n.publishRatePerSecond, rp.publishRate, MAX_INT32, k);
    } else {
      k := UnsettledIsFatal(n.messageSizeBytes, rp.messageSize, MAX_INT32);
      WorstIsRepeat(n.messageSizeBytes, rp.messageSize, MAX_INT32, k);
    }
    FieldsStep(n, Worsts(rp), k);
  }

  lemma UnsettledFails(c: Contents, rp: RepeatPolicy) returns (k: nat)
    requires ValidContents(c) && Fits(c) && ValidPolicy(rp) && !Settled(c, rp)
    ensures !ValidContents(WorstContentsAfter(c, rp, k))
  {
    if !NumbersSettled(c.numbers, rp) {
      k := UnsettledNumbersFail(c.numbers, rp);
    } else {
      var i :| 0 <= i < |c.streams| && !StreamSettled(c.streams[i], rp);
      k := UnsettledStreamFails(c.streams[i], rp);
      assert WorstContentsAfter(c, rp, k).streams[i] == WorstStreamAfter(c.streams[i], rp, k);
    }
  }

  // --- Repetition without overflow ---

  function ScaledStream(s: StreamSpec, rp: RepeatPolicy): StreamSpec {
    s.(count := Scaled(s.count, rp.count), replicas := Scaled(s.replicas, rp.replicas),
       messagesPerStreamPerSecond := Scaled(s.messagesPerStreamPerSecond, rp.messages))
  }

  function Scalers(rp: RepeatPolicy): Steps {
    Steps(Scaler(rp.duration), Scaler(rp.rampUp), Scaler(rp.ackWait), Scaler(rp.maxAckPending),
          Scaler(rp.consumeDelay), Scaler(rp.consumersPerStream), Scaler(rp.publishersPerStream),
          Scaler(rp.publishRate), Scaler(rp.messageSize))
  }

  function NumbersAfter(n: Numbers, rp: RepeatPolicy, k: nat): Numbers {
    SteppedAfter(n, Scalers(rp), k)
  }

  // Every number by its own multiplier.
  lemma NumbersIterate(n: Numbers, rp: RepeatPolicy, k: nat)
    ensures NumbersAfter(n, rp, k) ==
            Numbers(Iterated(n.durationSeconds, rp.duration, k), Iterated(n.rampUpSeconds, rp.rampUp, k),
                    Iterated(n.ackWaitSeconds, rp.ackWait, k), Iterated(n.maxAckPending, rp.maxAckPending, k),
                    Iterated(n.consumeDelayMs, rp.consumeDelay, k),
                    Iterated(n.consumersPerStream, rp.consumersPerStream, k),
                    Iterated(n.publishersPerStream, rp.publishersPerStream, k),
                    Iterated(n.publishRatePerSecond, rp.publishRate, k),
                    Iterated(n.messageSizeBytes, rp.messageSize, k))
  {
    FieldsStep(n, Scalers(rp), k);
    IteratedIsRepeat(n.durationSeconds, rp.duration, k);
    IteratedIsRepeat(n.rampUpSeconds, rp.rampUp, k);
    IteratedIsRepeat(n.ackWaitSeconds, rp.ackWait, k);
    IteratedIsRepeat(n.maxAckPending, rp.maxAckPending, k);
    IteratedIsRepeat(n.consumeDelayMs, rp.consumeDelay, k);
    IteratedIsRepeat(n.consumersPerStream, rp.consumersPerStream, k);
    IteratedIsRepeat(n.publishersPerStream, rp.publishersPerStream, k);
    IteratedIsRepeat(n.publishRatePerSecond, rp.publishRate, k);
    IteratedIsRepeat(n.messageSizeBytes, rp.messageSize, k);
  }

  function StreamAfter(s: StreamSpec, rp: RepeatPolicy, k: nat): StreamSpec {
    if k == 0 then s else ScaledStream(StreamAfter(s, rp, k - 1), rp)
  }

  lemma {:induction false} StreamIterates(s: StreamSpec, rp: RepeatPolicy, k: nat)
    ensures StreamAfter(s, rp, k) ==
            s.(count := Iterated(s.count, rp.count, k), replicas := Iterated(s.replicas, rp.replicas, k),
               messagesPerStreamPerSecond := Iterated(s.messagesPerStreamPerSecond, rp.messages, k))
  {
    if k == 0 {
    } else {
      StreamIterates(s, rp, k - 1);
    }
  }

  // No exact value up to the k-th repetition leaves its type.
  ghost predicate FitsThrough(c: Contents, rp: RepeatPolicy, k: nat) {
    forall j: nat :: j <= k ==>
      && NumbersFit(NumbersAfter(c.numbers, rp, j))
      && forall i :: 0 <= i < |c.streams| ==> StreamFits(StreamAfter(c.streams[i], rp, j))
  }

  lemma ScaledExactly(n: Numbers, rp: RepeatPolicy, n': Numbers)
    requires NumbersScaled(n, rp, n') && NumbersFit(Stepped(n, Scalers(rp)))
    ensures n' == Stepped(n, Scalers(rp))
  {
  }

  lemma StreamScaledExactly(s: StreamSpec, rp: RepeatPolicy, s': StreamSpec)
    requires StreamScaled(s, rp, s') && StreamFits(ScaledStream(s, rp))
    ensures s' == ScaledStream(s, rp)
  {
  }

  // As long as nothing overflows, a run in place takes exactly the iterated values.
  lemma {:induction false} RunIsExact(run: seq<Contents>, rp: RepeatPolicy, k: nat)
    requires k < |run| && IsRun(run, rp) && FitsThrough(run[0], rp, k)
    ensures run[k].numbers == NumbersAfter(run[0].numbers, rp, k) && |run[k].streams| == |run[0].streams|
    ensures forall i :: 0 <= i < |run[0].streams| ==> run[k].streams[i] == StreamAfter(run[0].streams[i], rp, k)
  {
    if k == 0 {
    } else {
      RunIsExact(run, rp, k - 1);
      assert Repeated(run[k - 1], rp, run[k]);
      assert NumbersFit(NumbersAfter(run[0].numbers, rp, k));
      ScaledExactly(run[k - 1].numbers, rp, run[k].numbers);
      forall i | 0 <= i < |run[0].streams| ensures run[k].streams[i] == StreamAfter(run[0].streams[i], rp, k) {
        assert StreamFits(StreamAfter(run[0].streams[i], rp, k));
        StreamScaledExactly(run[k - 1].streams[i], rp, run[k].streams[i]);
      }
    }
  }

  // No multiplier of a validated field is below 1; ramp-up's and the delay's may be.
  predicate NeverShrinks(rp: RepeatPolicy) {
    && rp.count >= 1.0 && rp.replicas >= 1.0 && rp.messages >= 1.0 && rp.duration >= 1.0
    && rp.ackWait >= 1.0 && rp.maxAckPending >= 1.0 && rp.consumersPerStream >= 1.0
    && rp.publishersPerStream >= 1.0 && rp.publishRate >= 1.0 && rp.messageSize >= 1.0
  }

  predicate NumbersGrown(n: Numbers, n': Numbers) {
    && n.durationSeconds <= n'.durationSeconds && 0 <= n'.rampUpSeconds && n.ackWaitSeconds <= n'.ackWaitSeconds
    && n.maxAckPending <= n'.maxAckPending && n.consumersPerStream <= n'.consumersPerStream
    && n.publishersPerStream <= n'.publishersPerStream && n.publishRatePerSecond <= n'.publishRatePerSecond
    && n.messageSizeBytes <= n'.messageSizeBytes
  }

  predicate StreamGrown(s: StreamSpec, s': StreamSpec) {
    && s'.namePrefix == s.namePrefix && s'.subjects == s.subjects && s.count <= s'.count
    && s.replicas <= s'.replicas && s.messagesPerStreamPerSecond <= s'.messagesPerStreamPerSecond
  }

  // Every number is one that float64 represents, as all of up to 53 digits are.
  predicate NumbersExact(n: Numbers) {
    && Exactly(n.durationSeconds) && Exactly(n.ackWaitSeconds) && Exactly(n.maxAckPending)
    && Exactly(n.consumersPerStream) && Exactly(n.publishersPerStream) && Exactly(n.publishRatePerSecond)
    && Exactly(n.messageSizeBytes)
  }

  predicate StreamExact(s: StreamSpec) {
    Exactly(s.count) && Exactly(s.replicas) && Exactly(s.messagesPerStreamPerSecond)
  }

  // One field, at least as large after k repetitions as after j.
  lemma FieldGrows(v: int, m: Factor, j: nat, k: nat)
    requires v > 0 && m >= 1.0 && j <= k
    ensures Repeat(Scaler(m), v, k) > 0
    ensures Exactly(v) ==> Repeat(Scaler(m), v, j) <= Repeat(Scaler(m), v, k)
  {
    IteratedIsRepeat(v, m, j);
    IteratedIsRepeat(v, m, k);
    IteratedPositive(v, m, k);
    if Exactly(v) {
      IteratedGrowsOn(v, m, j, k);
    }
  }

  lemma NumbersGrow(n: Numbers, rp: RepeatPolicy, j: nat, k: nat)
    requires ValidNumbers(n) && ValidPolicy(rp) && NeverShrinks(rp) && j <= k
    ensures ValidNumbers(NumbersAfter(n, rp, k))
    ensures NumbersExact(n) ==> NumbersGrown(NumbersAfter(n, rp, j), NumbersAfter(n, rp, k))
  {
    FieldsStep(n, Scalers(rp), j);
    FieldsStep(n, Scalers(rp), k);
    FieldGrows(n.durationSeconds, rp.duration, j, k);
    FieldGrows(n.ackWaitSeconds, rp.ackWait, j, k);
    FieldGrows(n.maxAckPending, rp.maxAckPending, j, k);
    FieldGrows(n.consumersPerStream, rp.consumersPerStream, j, k);
    FieldGrows(n.publishersPerStream, rp.publishersPerStream, j, k);
    FieldGrows(n.publishRatePerSecond, rp.publishRate, j, k);
    FieldGrows(n.messageSizeBytes, rp.messageSize, j, k);
    IteratedIsRepeat(n.rampUpSeconds, rp.rampUp, k);
    IteratedNonNegative(n.rampUpSeconds, rp.rampUp, k);
  }

  lemma StreamGrows(s: StreamSpec, rp: RepeatPolicy, j: nat, k: nat)
    requires ValidStream(s) && NeverShrinks(rp) && j <= k
    ensures ValidStream(StreamAfter(s, rp, k))
    ensures StreamExact(s) ==> StreamGrown(StreamAfter(s, rp, j), StreamAfter(s, rp, k))
  {
    StreamIterates(s, rp, j);
    StreamIterates(s, rp, k);
    IteratedPositive(s.count, rp.count, k);
    IteratedPositive(s.replicas, rp.replicas, k);
    IteratedPositive(s.messagesPerStreamPerSecond, rp.messages, k);
    if StreamExact(s) {
      IteratedGrowsOn(s.count, rp.count, j, k);
      IteratedGrowsOn(s.replicas, rp.replicas, j, k);
      IteratedGrowsOn(s.messagesPerStreamPerSecond, rp.messages, j, k);
    }
  }

  // As long as nothing overflows, multipliers of at least 1 keep a specification
  // valid and let no validated field shrink.
  lemma GrowthKeepsValid(run: seq<Contents>, rp: RepeatPolicy, j: nat, k: nat)
    requires j <= k < |run| && IsRun(run, rp) && FitsThrough(run[0], rp, k)
    requires ValidContents(run[0]) && ValidPolicy(rp) && NeverShrinks(rp)
    ensures ValidContents(run[k])
    ensures NumbersExact(run[0].numbers) ==> NumbersGrown(run[j].numbers, run[k].numbers)
    ensures |run[j].streams| == |run[k].streams| == |run[0].streams|
    ensures forall i :: 0 <= i < |run[0].streams| && StreamExact(run[0].streams[i]) ==>
              StreamGrown(run[j].streams[i], run[k].streams[i])
  {
    RunIsExact(run, rp, j);
    RunIsExact(run, rp, k);
    NumbersGrow(run[0].numbers, rp, j, k);
    forall i | 0 <= i < |run[0].streams|
      ensures ValidStream(run[k].streams[i])
      ensures StreamExact(run[0].streams[i]) ==> StreamGrown(run[j].streams[i], run[k].streams[i])
    {
      StreamGrows(run[0].streams[i], rp, j, k);
    }
  }

  // A policy that leaves every multiplier out repeats everything that float64
  // represents as it is, but drops a ramp-up: unlike the others its multiplier does
  // not default to 1.
  lemma OmittedMultipliers(n: Numbers, s: StreamSpec, rp: RepeatPolicy)
    requires NumbersFit(n) && StreamFits(s)
    requires rp == RepeatPolicy(0.0, 0.0, 0.0, 0.0, 0.0, 0.0, 0.0, 0.0, 0.0, 0.0, 0.0, 0.0)
    ensures ScaledStream(s, WithDefaults(rp)) == s <==> Exactly(s.messagesPerStreamPerSecond)
    ensures Stepped(n, Scalers(WithDefaults(rp))).rampUpSeconds == 0
    ensures Stepped(n, Scalers(WithDefaults(rp))) == n.(rampUpSeconds := 0) <==>
            Exactly(n.durationSeconds) && Exactly(n.ackWaitSeconds) && Exactly(n.consumeDelayMs)
  {
    ScaledByZero(n.rampUpSeconds);
    forall v: int ensures Scaled(v, 1.0) == v <==> Exactly(v) {
      OneKeepsIff(v);
    }
    forall v: int | Within(v, MAX_INT32) ensures Exactly(v) {
      SmallIsExact(v);
    }
  }
}
