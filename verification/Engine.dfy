// The engine's lifecycle: which fields Start, Stop and cleanup set and clear,
// and what becomes of the connections and errgroups they create. The answers
// of the NATS client library are parameters.
module EngineLifecycle {
  import opened Sequences
  import opened LoadTestSpecs
  import opened FanOut
  import opened Setup

  // A load test specification, as far as the lifecycle looks at it. scaled counts the
  // times ApplyMultipliers has been applied, contents says what it has made of the
  // specification, and prefix is that of the consumers' streams.
  datatype Spec = Spec(name: string, useJetStream: bool, prefix: string, scaled: nat, contents: nat -> Contents)

  function Streams(spec: Spec): nat {
    StreamCount(spec.contents(spec.scaled).streams)
  }

  function Consumers(spec: Spec): nat {
    var c := spec.contents(spec.scaled);
    Members(c.streams, spec.prefix, AtLeastZero(c.numbers.consumersPerStream))
  }

  // The consumers started are those created.
  lemma ConsumersAreCreated(spec: Spec)
    ensures var c := spec.contents(spec.scaled);
            Consumers(spec) == |Places(c.streams, spec.prefix, AtLeastZero(c.numbers.consumersPerStream))|
  {
    var c := spec.contents(spec.scaled);
    PlacesCount(c.streams, spec.prefix, AtLeastZero(c.numbers.consumersPerStream));
  }

  datatype StartAnswers = StartAnswers(
    connectOk: bool,                      // nats.Connect
    jetStreamOk: bool,                    // nc.JetStream
    streamTries: nat -> StreamTries,      // setting up each stream
    publishers: seq<string>,
    consumers: seq<string>,
    consumerTries: nat -> Attempts,       // starting each consumer
    connected: bool                       // IsConnected, should Start have to clean up
  )

  datatype Call = Started(spec: Spec) | FailedStart(spec: Spec) | Stopped

  // Start gets far enough to create its errgroup.
  predicate ReachesSetup(spec: Spec, a: StartAnswers) {
    a.connectOk && (spec.useJetStream ==> a.jetStreamOk)
  }

  // SetupStreams and CreateConsumers, where they are called.
  ghost predicate StreamsSetUp(spec: Spec, a: StartAnswers) {
    spec.useJetStream ==> FirstSucceed(a.streamTries, Streams(spec))
  }

  ghost predicate ConsumersStarted(enableConsumers: bool, spec: Spec, a: StartAnswers) {
    enableConsumers ==> forall k: nat :: k < Consumers(spec) ==> ConsumerSucceeds(a.consumerTries(k))
  }

  // Start succeeds exactly when every step it needs does.
  ghost predicate Succeeds(enableConsumers: bool, spec: Spec, a: StartAnswers) {
    ReachesSetup(spec, a) && StreamsSetUp(spec, a) && ConsumersStarted(enableConsumers, spec, a)
  }

  // The context is done before the first call that looks at it.
  ghost predicate BegunDone(a: StartAnswers) {
    && (forall k: nat :: a.streamTries(k).deleting[0].doneBefore)
    && (forall k: nat :: a.consumerTries(k)[0].doneBefore)
  }

  predicate NothingToStart(enableConsumers: bool, spec: Spec) {
    && (spec.useJetStream ==> Streams(spec) == 0)
    && (enableConsumers ==> Consumers(spec) == 0)
  }

  // Under a done context, Start succeeds exactly if it has no stream to set up and no
  // consumer to start.
  lemma DoneSucceedsIff(enableConsumers: bool, spec: Spec, a: StartAnswers)
    requires BegunDone(a)
    ensures Succeeds(enableConsumers, spec, a) <==> ReachesSetup(spec, a) && NothingToStart(enableConsumers, spec)
  {
    DoneStreamsFail(spec.contents(spec.scaled).streams, a.streamTries);
    DoneConsumersFail(Consumers(spec), a.consumerTries);
  }

  // A specification that passes validation, as far as this matters.
  ghost predicate Validated(spec: Spec) {
    ValidatedContents(spec.contents(spec.scaled), spec.prefix)
  }

  ghost predicate ValidatedContents(c: Contents, prefix: string) {
    ValidContents(c) && exists n :: 0 <= n < |c.streams| && Matches(c.streams[n], prefix)
  }

  lemma ValidatedHasBoth(spec: Spec)
    requires Validated(spec)
    ensures Streams(spec) > 0 && Consumers(spec) > 0
  {
    var c := spec.contents(spec.scaled);
    var n :| 0 <= n < |c.streams| && Matches(c.streams[n], spec.prefix);
    StreamsToSetUp(c.streams);
    ConsumersToStart(c.streams, spec.prefix, c.numbers.consumersPerStream, n);
  }

  // What the engine's calls have brought about outside its own fields: on the client
  // library's and the runtime's side, and in the collector. Connections and
  // errgroups are numbered from 0.
  datatype World = World(
    dialed: nat,                    // connections made
    open: set<nat>,                 // ... and not closed
    groups: nat,                    // errgroups created
    cancelledGroups: set<nat>,      // ... whose context has been cancelled
    collecting: set<nat>,           // ... whose periodic collection has been started
    rampingUp: set<nat>,            // ... whose ramp-up has been started
    waited: map<nat, bool>,         // ... that have been waited for, and whether a task failed
    collectorSpec: Option<Spec>,    // what the collector was last configured for
    failuresWritten: nat            // failed connections, each written as a failure
  )

  const UNTOUCHED := World(0, {}, 0, {}, {}, {}, map[], None, 0)

  // Cleaning up closes the connection if it is connected and cancels the group.
  function CleanedUp(w: World, nc: Option<nat>, connected: bool, group: Option<nat>): World {
    w.(open := if nc.Some? && connected then w.open - {nc.value} else w.open,
       cancelledGroups := if group.Some? then w.cancelledGroups + {group.value} else w.cancelledGroups)
  }

  // What a worker's run is judged by.
  datatype Snapshot = Snapshot(world: World, natsConn: Option<nat>, errGroup: Option<nat>, calls: seq<Call>)

  class Engine {
    const enablePublishers: bool
    const enableConsumers: bool

    var natsConn: Option<nat>
    var jetStreamContext: bool
    var loadTestSpec: Option<Spec>
    var publishers: seq<string>
    var consumers: seq<string>
    var cancel: Option<nat>         // cancels the context of this group
    var errGroup: Option<nat>
    var streamManager: bool

    var world: World
    ghost var calls: seq<Call>

    ghost predicate Valid()
      reads this
    {
      && (natsConn.Some? ==> natsConn.value < world.dialed)
      && (forall c :: c in world.open ==> c < world.dialed)
      && (errGroup.Some? ==> errGroup.value < world.groups)
      && cancel == errGroup
      && (loadTestSpec.Some? ==> natsConn.Some?)
      && (forall g :: g in world.waited ==> g < world.groups)
    }

    ghost function Now(): Snapshot
      reads this
    {
      Snapshot(world, natsConn, errGroup, calls)
    }

    ghost predicate Cleared()
      reads this
    {
      && natsConn == None && !jetStreamContext && loadTestSpec == None && !streamManager
      && publishers == [] && consumers == []
    }

    constructor (enablePublishers: bool, enableConsumers: bool)
      ensures Valid() && Cleared() && world == UNTOUCHED && calls == [] && errGroup == None
      ensures this.enablePublishers == enablePublishers && this.enableConsumers == enableConsumers
    {
      this.enablePublishers, this.enableConsumers := enablePublishers, enableConsumers;
      natsConn, jetStreamContext, loadTestSpec, publishers, consumers := None, false, None, [], [];
      cancel, errGroup, streamManager := None, None, false;
      world, calls := UNTOUCHED, [];
    }

    method Connect(spec: Spec, a: StartAnswers) returns (ok: bool)
      requires Valid()
      modifies this`natsConn, this`jetStreamContext, this`world
      ensures Valid()
      ensures ok == ReachesSetup(spec, a)
      ensures natsConn == if a.connectOk then Some(old(world).dialed) else old(natsConn)
      ensures world ==
        if ok then old(world).(dialed := old(world).dialed + 1, open := old(world).open + {old(world).dialed})
        else old(world).(dialed := old(world).dialed + (if a.connectOk then 1 else 0))
      ensures jetStreamContext == (if ok && spec.useJetStream then true else old(jetStreamContext))
    {
      if !a.connectOk {
        return false;
      }
      var nc := world.dialed;
      natsConn := Some(nc);
      world := world.(dialed := nc + 1, open := world.open + {nc});
      if spec.useJetStream {
        if !a.jetStreamOk {
          world := world.(open := world.open - {nc});
          return false;
        }
        jetStreamContext := true;
      }
      return true;
    }

    method Cleanup(connected: bool)
      requires Valid()
      modifies this`natsConn, this`jetStreamContext, this`loadTestSpec, this`publishers, this`consumers,
               this`streamManager, this`world
      ensures Valid() && Cleared()
      ensures world == CleanedUp(old(world), old(natsConn), connected, cancel)
      // The current connection is closed if it is connected and lost otherwise; the
      // current group and no other is cancelled.
      ensures world.open ==
        if old(natsConn).Some? && connected then old(world).open - {old(natsConn).value} else old(world).open
      ensures world.cancelledGroups ==
        if cancel.Some? then old(world).cancelledGroups + {cancel.value} else old(world).cancelledGroups
    {
      var w := world;
      if cancel.Some? {
        w := w.(cancelledGroups := w.cancelledGroups + {cancel.value});
      }
      if natsConn.Some? && connected {
        w := w.(open := w.open - {natsConn.value});
      }
      world := w;
      jetStreamContext, natsConn, loadTestSpec, streamManager := false, None, None, false;
      publishers, consumers := [], [];
    }

    method SetUpStreams(spec: Spec, a: StartAnswers) returns (ok: bool)
      requires Valid()
      modifies this`natsConn, this`jetStreamContext, this`loadTestSpec, this`publishers, this`consumers,
               this`streamManager, this`world
      ensures Valid() && ok == StreamsSetUp(spec, a)
      ensures ok ==>
        && natsConn == old(natsConn) && jetStreamContext == old(jetStreamContext) && loadTestSpec == old(loadTestSpec)
        && publishers == old(publishers) && consumers == old(consumers) && world == old(world)
        && streamManager == (spec.useJetStream || old(streamManager))
      ensures !ok ==> Cleared() && world == CleanedUp(old(world), old(natsConn), a.connected, cancel)
    {
      if spec.useJetStream {
        streamManager := true;
        var streamsOk := TryAllStreams(Streams(spec), a.streamTries);
        if !streamsOk {
          Cleanup(a.connected);
          return false;
        }
      }
      return true;
    }

    method SetUpMembers(spec: Spec, a: StartAnswers) returns (ok: bool)
      requires Valid()
      modifies this`natsConn, this`jetStreamContext, this`loadTestSpec, this`publishers, this`consumers,
               this`streamManager, this`world
      ensures Valid() && ok == ConsumersStarted(enableConsumers, spec, a)
      ensures ok ==>
        && natsConn == old(natsConn) && jetStreamContext == old(jetStreamContext) && loadTestSpec == old(loadTestSpec)
        && publishers == (if enablePublishers then a.publishers else old(publishers))
        && consumers == (if enableConsumers then a.consumers else old(consumers))
        && streamManager == old(streamManager) && world == old(world)
      ensures !ok ==> Cleared() && world == CleanedUp(old(world), old(natsConn), a.connected, cancel)
    {
      if enablePublishers {
        publishers := a.publishers;
      }
      if enableConsumers {
        consumers := a.consumers;
        var consumersOk := StartConsumers(Consumers(spec), a.consumerTries);
        if !consumersOk {
          Cleanup(a.connected);
          return false;
        }
      }
      return true;
    }

    // Start from the point where the connection exists: the collector, the errgroup,
    // streams, publishers and consumers, and the ramp-up.
    method SetUp(spec: Spec, a: StartAnswers) returns (ok: bool)
      requires Valid() && natsConn.Some?
      modifies this`natsConn, this`jetStreamContext, this`loadTestSpec, this`publishers, this`consumers,
               this`streamManager, this`world, this`cancel, this`errGroup
      ensures Valid() && errGroup == Some(old(world).groups)
      ensures ok == (StreamsSetUp(spec, a) && ConsumersStarted(enableConsumers, spec, a))
      ensures var w, group := old(world), old(world).groups;
              var started := w.(groups := group + 1, collecting := w.collecting + {group}, collectorSpec := Some(spec));
              if ok then world == started.(rampingUp := w.rampingUp + {group})
              else Cleared() && world == CleanedUp(started, old(natsConn), a.connected, Some(group))
      ensures ok ==>
        && natsConn == old(natsConn) && jetStreamContext == old(jetStreamContext) && loadTestSpec == Some(spec)
        && streamManager == (spec.useJetStream || old(streamManager))
        && publishers == (if enablePublishers then a.publishers else old(publishers))
        && consumers == (if enableConsumers then a.consumers else old(consumers))
    {
      var group := world.groups;
      loadTestSpec := Some(spec);
      world := world.(groups := group + 1, collecting := world.collecting + {group}, collectorSpec := Some(spec));
      cancel, errGroup := Some(group), Some(group);
      ok := SetUpStreams(spec, a);
      if ok {
        ok := SetUpMembers(spec, a);
      }
      if ok {
        world := world.(rampingUp := world.rampingUp + {group});
      }
    }

    method Start(spec: Spec, a: StartAnswers) returns (ok: bool)
      requires Valid()
      modifies this
      ensures Valid()
      ensures ok == Succeeds(enableConsumers, spec, a)
      ensures calls == old(calls) + [if ok then Started(spec) else FailedStart(spec)]
      ensures errGroup == if ReachesSetup(spec, a) then Some(old(world).groups) else old(errGroup)
      // Once connected, the group is collecting, and ramping up on success. On failure the
      // connection is closed if it is connected and the group, like no other, is
      // cancelled, but not waited for.
      ensures ReachesSetup(spec, a) ==> var w, g := old(world), old(world).groups;
        world == World(w.dialed + 1, if ok || !a.connected then w.open + {w.dialed} else w.open,
                       g + 1, if ok then w.cancelledGroups else w.cancelledGroups + {g}, w.collecting + {g},
                       if ok then w.rampingUp + {g} else w.rampingUp, w.waited, Some(spec), w.failuresWritten)
      ensures ok ==>
        && natsConn == Some(old(world).dialed) && loadTestSpec == Some(spec)
        && (spec.useJetStream ==> jetStreamContext && streamManager)
        && publishers == (if enablePublishers then a.publishers else old(publishers))
        && consumers == (if enableConsumers then a.consumers else old(consumers))
      ensures !ok && ReachesSetup(spec, a) ==> Cleared()
      // Failing before writes a failure and leaves all but the connection field as it was.
      ensures !ReachesSetup(spec, a) ==>
        && natsConn == (if a.connectOk then Some(old(world).dialed) else old(natsConn))
        && loadTestSpec == old(loadTestSpec) && publishers == old(publishers) && consumers == old(consumers)
        && streamManager == old(streamManager) && jetStreamContext == old(jetStreamContext)
        && world == old(world).(dialed := old(world).dialed + (if a.connectOk then 1 else 0),
                                failuresWritten := old(world).failuresWritten + 1)
    {
      assert world.open + {world.dialed} - {world.dialed} == world.open;
      ok := Connect(spec, a);
      if ok {
        ok := SetUp(spec, a);
      } else {
        world := world.(failuresWritten := world.failuresWritten + 1);
      }
      calls := calls + [if ok then Started(spec) else FailedStart(spec)];
    }

    // connected is what IsConnected answers, taskFailed whether a task of a group
    // not waited for before has failed.
    method Stop(connected: bool, taskFailed: bool) returns (failed: bool)
      requires Valid()
      modifies this
      ensures Valid() && Cleared()
      ensures calls == old(calls) + [Stopped]
      ensures errGroup == old(errGroup) && cancel == old(cancel)
      // The connection is closed if it is connected; the group and no other is cancelled.
      ensures world == old(world).(open := world.open, cancelledGroups := world.cancelledGroups, waited := world.waited)
      ensures world.open ==
        if old(natsConn).Some? && connected then old(world).open - {old(natsConn).value} else old(world).open
      ensures world.cancelledGroups ==
        if errGroup.Some? then old(world).cancelledGroups + {errGroup.value} else old(world).cancelledGroups
      ensures world.waited ==
        if errGroup.Some? && errGroup.value !in old(world).waited then old(world).waited[errGroup.value := taskFailed]
        else old(world).waited
      ensures failed == (errGroup.Some? && world.waited[errGroup.value])
      // Stopping again changes nothing and reports the same error.
      ensures old(Cleared()) && (errGroup.Some? ==>
          errGroup.value in old(world).waited && errGroup.value in old(world).cancelledGroups) ==>
        world == old(world) && failed == (errGroup.Some? && old(world).waited[errGroup.value])
    {
      failed := false;
      if cancel.Some? {
        world := world.(cancelledGroups := world.cancelledGroups + {cancel.value});
      }
      if errGroup.Some? {
        if errGroup.value !in world.waited {
          world := world.(waited := world.waited[errGroup.value := taskFailed]);
        }
        failed := world.waited[errGroup.value];
      }
      Cleanup(connected);
      assert forall g: nat :: old(world).cancelledGroups + {g} + {g} == old(world).cancelledGroups + {g};
      calls := calls + [Stopped];
    }
  }
}
